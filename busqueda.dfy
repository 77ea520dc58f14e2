/**
 * Candidate tracker of the clip detector (Busqueda.py): walks the per-frame
 * neighbour lists of a broadcast in time order, keeps a list of candidate
 * airings of reference clips, and reports a detection when a candidate has
 * gone through every frame of its clip.
 */
module Busqueda {
  import opened Distancia

  /** Tolerance window for matching the expected frame index. */
  const RANGO: int := 1

  /** Largest clip index at which a new candidate may start. */
  const MAXIMO_INICIAL: int := 1

  /** The neighbour list of one broadcast frame, at its time stamp. */
  datatype Cercanos = Cercanos(tiempo: real, frames: seq<Frame>)

  /** A candidate airing of clip `nombre`, started at `tiempoInicio`, now at frame `indice`. */
  datatype Comercial = Comercial(nombre: string, indice: int, tiempoInicio: real, errores: nat)

  /** A detected airing. */
  datatype Deteccion = Deteccion(nombre: string, tiempoInicio: real, duracion: real)

  /** The candidates after a step and the detections the step reported, in order. */
  datatype Resultado = Resultado(comerciales: seq<Comercial>, detecciones: seq<Deteccion>)

  // ---------------------------------------------------------------------------
  // buscar_indice
  // ---------------------------------------------------------------------------

  /** Some neighbour is a frame of `comercial` within `rango` of `indice`. */
  predicate Encontrado(comercial: string, indice: int, frames: seq<Frame>, rango: int)
  {
    exists j :: 0 <= j < |frames| && comercial == frames[j].comercial &&
      frames[j].indice - rango <= indice <= frames[j].indice + rango
  }

  method BuscarIndice(comercial: string, indice: int, frames: seq<Frame>, rango: int) returns (hallado: bool)
    ensures hallado == Encontrado(comercial, indice, frames, rango)
  {
    for j := 0 to |frames|
      invariant forall m :: 0 <= m < j ==>
        !(comercial == frames[m].comercial && frames[m].indice - rango <= indice <= frames[m].indice + rango)
    {
      var frame := frames[j];
      if comercial == frame.comercial && frame.indice - rango <= indice <= frame.indice + rango {
        return true;
      }
    }
    return false;
  }

  // ---------------------------------------------------------------------------
  // buscar_inicio
  // ---------------------------------------------------------------------------

  /** The scan state of `buscar_inicio` after the given frames: best index so far and its clip. */
  function Escaneo(frames: seq<Frame>, maximo: int): (int, string)
  {
    if frames == [] then (maximo + 1, "")
    else
      var anterior := Escaneo(frames[..|frames| - 1], maximo);
      var f := frames[|frames| - 1];
      if f.indice <= maximo && f.indice < anterior.0 then (f.indice, f.comercial) else anterior
  }

  /** The start found among the neighbours, `(-1, "")` when there is none. */
  function Inicio(frames: seq<Frame>, maximo: int): (int, string)
  {
    var r := Escaneo(frames, maximo);
    if r.0 == maximo + 1 then (-1, "") else r
  }

  /**
   * Frame `j` is eligible (index at most `maximo`), no eligible frame has a
   * smaller index, and no earlier frame has the same index.
   */
  predicate PrimerMinimo(frames: seq<Frame>, maximo: int, j: int)
  {
    0 <= j < |frames| && frames[j].indice <= maximo &&
    (forall m :: 0 <= m < |frames| && frames[m].indice <= maximo ==> frames[j].indice <= frames[m].indice) &&
    (forall m :: 0 <= m < j ==> frames[m].indice > frames[j].indice)
  }

  /** With no eligible neighbour the scan keeps its initial state. */
  lemma {:induction false} EscaneoSinElegibles(frames: seq<Frame>, maximo: int)
    requires forall m :: 0 <= m < |frames| ==> frames[m].indice > maximo
    ensures Escaneo(frames, maximo) == (maximo + 1, "")
  {
    if frames != [] {
      var prev := frames[..|frames| - 1];
      assert forall m :: 0 <= m < |prev| ==> prev[m] == frames[m];
      EscaneoSinElegibles(prev, maximo);
    }
  }

  /** The last frame is the first minimum when no earlier frame is eligible. */
  lemma PrimerMinimoUnico(frames: seq<Frame>, maximo: int)
    requires |frames| > 0 && frames[|frames| - 1].indice <= maximo
    requires forall m :: 0 <= m < |frames| - 1 ==> frames[m].indice > maximo
    ensures PrimerMinimo(frames, maximo, |frames| - 1)
  {
  }

  /** A strictly smaller eligible last frame takes over the first minimum. */
  lemma PrimerMinimoReemplazo(frames: seq<Frame>, maximo: int, j: int)
    requires |frames| > 0 && PrimerMinimo(frames[..|frames| - 1], maximo, j)
    requires frames[|frames| - 1].indice <= maximo && frames[|frames| - 1].indice < frames[j].indice
    ensures PrimerMinimo(frames, maximo, |frames| - 1)
  {
    var prev := frames[..|frames| - 1];
    forall m | 0 <= m < |frames| - 1 ensures frames[m].indice > frames[|frames| - 1].indice {
      assert frames[m] == prev[m];
    }
  }

  /** Any other last frame leaves the first minimum where it was. */
  lemma PrimerMinimoConserva(frames: seq<Frame>, maximo: int, j: int)
    requires |frames| > 0 && PrimerMinimo(frames[..|frames| - 1], maximo, j)
    requires !(frames[|frames| - 1].indice <= maximo && frames[|frames| - 1].indice < frames[j].indice)
    ensures PrimerMinimo(frames, maximo, j)
  {
    var prev := frames[..|frames| - 1];
    assert forall m :: 0 <= m < |frames| - 1 ==> frames[m] == prev[m];
  }

  /** With some eligible neighbour the scan ends on the first one of least index. */
  lemma {:induction false} EscaneoMinimo(frames: seq<Frame>, maximo: int)
    requires exists m :: 0 <= m < |frames| && frames[m].indice <= maximo
    ensures exists j :: PrimerMinimo(frames, maximo, j) && Escaneo(frames, maximo) == (frames[j].indice, frames[j].comercial)
  {
    var n := |frames|;
    var prev := frames[..n - 1];
    var f := frames[n - 1];
    assert Escaneo(frames, maximo) == (if f.indice <= maximo && f.indice < Escaneo(prev, maximo).0 then (f.indice, f.comercial) else Escaneo(prev, maximo));
    if forall m :: 0 <= m < n - 1 ==> prev[m].indice > maximo {
      assert forall m :: 0 <= m < n - 1 ==> frames[m] == prev[m];
      assert f.indice <= maximo;
      EscaneoSinElegibles(prev, maximo);
      PrimerMinimoUnico(frames, maximo);
      assert Escaneo(frames, maximo) == (frames[n - 1].indice, frames[n - 1].comercial);
    } else {
      EscaneoMinimo(prev, maximo);
      var j :| PrimerMinimo(prev, maximo, j) && Escaneo(prev, maximo) == (prev[j].indice, prev[j].comercial);
      assert prev[j] == frames[j];
      if f.indice <= maximo && f.indice < prev[j].indice {
        PrimerMinimoReemplazo(frames, maximo, j);
        assert Escaneo(frames, maximo) == (frames[n - 1].indice, frames[n - 1].comercial);
      } else {
        PrimerMinimoConserva(frames, maximo, j);
        assert Escaneo(frames, maximo) == (frames[j].indice, frames[j].comercial);
      }
    }
  }

  lemma EscaneoCaracterizacion(frames: seq<Frame>, maximo: int)
    ensures (forall m :: 0 <= m < |frames| ==> frames[m].indice > maximo) ==> Escaneo(frames, maximo) == (maximo + 1, "")
    ensures (exists m :: 0 <= m < |frames| && frames[m].indice <= maximo) ==>
      exists j :: PrimerMinimo(frames, maximo, j) && Escaneo(frames, maximo) == (frames[j].indice, frames[j].comercial)
  {
    if forall m :: 0 <= m < |frames| ==> frames[m].indice > maximo {
      EscaneoSinElegibles(frames, maximo);
    } else {
      EscaneoMinimo(frames, maximo);
    }
  }

  /**
   * `buscar_inicio`: `(-1, "")` when no neighbour has an index at most
   * `maximo`; otherwise the smallest such index, with the clip of the first
   * neighbour carrying it.
   */
  lemma InicioCaracterizacion(frames: seq<Frame>, maximo: int)
    ensures (forall m :: 0 <= m < |frames| ==> frames[m].indice > maximo) ==> Inicio(frames, maximo) == (-1, "")
    ensures (exists m :: 0 <= m < |frames| && frames[m].indice <= maximo) ==>
      exists j :: PrimerMinimo(frames, maximo, j) && Inicio(frames, maximo) == (frames[j].indice, frames[j].comercial)
  {
    EscaneoCaracterizacion(frames, maximo);
  }

  /** When a start is found its index is at most `maximo` and names a neighbour's clip. */
  lemma InicioAcotado(frames: seq<Frame>, maximo: int)
    ensures Inicio(frames, maximo).0 != -1 ==>
      Inicio(frames, maximo).0 <= maximo &&
      exists j :: 0 <= j < |frames| && frames[j].comercial == Inicio(frames, maximo).1 &&
        frames[j].indice == Inicio(frames, maximo).0
  {
    EscaneoCaracterizacion(frames, maximo);
  }

  method BuscarInicio(frames: seq<Frame>, maximoInicial: int) returns (indice: int, comercial: string)
    ensures (indice, comercial) == Inicio(frames, maximoInicial)
  {
    comercial := "";
    indice := maximoInicial + 1;
    for j := 0 to |frames|
      invariant (indice, comercial) == Escaneo(frames[..j], maximoInicial)
    {
      var frame := frames[j];
      if frame.indice <= maximoInicial && frame.indice < indice {
        indice := frame.indice;
        comercial := frame.comercial;
      }
      assert frames[..j + 1][..j] == frames[..j];
    }
    assert frames[..|frames|] == frames;
    if indice == maximoInicial + 1 {
      return -1, "";
    }
  }

  // ---------------------------------------------------------------------------
  // One step of the tracker
  // ---------------------------------------------------------------------------

  /** The candidate has reached the last frame of its clip. */
  predicate EsFinal(c: Comercial, numeroFrames: map<string, int>)
  {
    c.nombre in numeroFrames && c.indice == numeroFrames[c.nombre] - 1
  }

  /** The candidate moved one frame on, with a miss counted when the next frame is not among the neighbours. */
  function Avanzado(c: Comercial, frames: seq<Frame>): Comercial
  {
    var indice := c.indice + 1;
    c.(indice := indice, errores := if Encontrado(c.nombre, indice, frames, RANGO) then c.errores else c.errores + 1)
  }

  /** The error budget is spent: ten misses, or more than three within the first ten frames. */
  predicate Descartado(c: Comercial)
  {
    c.errores >= 10 || (c.indice < 10 && c.errores > 3)
  }

  /** What the advancing pass leaves in a candidate's slot. */
  function Movido(c: Comercial, frames: seq<Frame>, numeroFrames: map<string, int>): Comercial
  {
    if EsFinal(c, numeroFrames) then c else Avanzado(c, frames)
  }

  /** The candidate is neither complete nor over its error budget after advancing. */
  predicate Sigue(c: Comercial, frames: seq<Frame>, numeroFrames: map<string, int>)
  {
    !EsFinal(c, numeroFrames) && !Descartado(Avanzado(c, frames))
  }

  function DeteccionDe(c: Comercial, tiempo: real): Deteccion
  {
    Deteccion(c.nombre, c.tiempoInicio, tiempo - c.tiempoInicio)
  }

  /** One detection per complete candidate, in list order. */
  function Detecciones(cs: seq<Comercial>, tiempo: real, numeroFrames: map<string, int>): seq<Deteccion>
  {
    if cs == [] then []
    else
      var c := cs[|cs| - 1];
      Detecciones(cs[..|cs| - 1], tiempo, numeroFrames) +
        (if EsFinal(c, numeroFrames) then [DeteccionDe(c, tiempo)] else [])
  }

  /** Some detection is of clip `nombre`. */
  predicate Completado(detecciones: seq<Deteccion>, nombre: string)
  {
    exists i :: 0 <= i < |detecciones| && detecciones[i].nombre == nombre
  }

  /** The advanced candidates that are within budget and whose clip was not just detected, in list order. */
  function Sobrevivientes(cs: seq<Comercial>, frames: seq<Frame>, numeroFrames: map<string, int>,
                          detecciones: seq<Deteccion>): seq<Comercial>
  {
    if cs == [] then []
    else
      var c := cs[|cs| - 1];
      Sobrevivientes(cs[..|cs| - 1], frames, numeroFrames, detecciones) +
        (if Sigue(c, frames, numeroFrames) && !Completado(detecciones, c.nombre) then [Avanzado(c, frames)] else [])
  }

  /** The candidate spawned from a neighbour list at time `tiempo`, if any. */
  function Nuevo(frames: seq<Frame>, tiempo: real): seq<Comercial>
  {
    var inicio := Inicio(frames, MAXIMO_INICIAL);
    if inicio.0 != -1 then [Comercial(inicio.1, inicio.0, tiempo, 0)] else []
  }

  /** The whole step at time `tiempo` with neighbour list `frames`. */
  function PasoEspec(cs: seq<Comercial>, tiempo: real, frames: seq<Frame>, numeroFrames: map<string, int>): Resultado
  {
    var detecciones := Detecciones(cs, tiempo, numeroFrames);
    Resultado(Sobrevivientes(cs, frames, numeroFrames, detecciones) + Nuevo(frames, tiempo), detecciones)
  }

  /** The positions of `cs`, in increasing order, whose candidate satisfies `p`. */
  ghost function Posiciones(cs: seq<Comercial>, p: Comercial -> bool): (r: seq<nat>)
    ensures forall i :: 0 <= i < |r| ==> r[i] < |cs| && p(cs[r[i]])
    ensures forall i, j :: 0 <= i < j < |r| ==> r[i] < r[j]
    ensures forall j :: 0 <= j < |cs| && p(cs[j]) ==> j in r
  {
    if cs == [] then []
    else Posiciones(cs[..|cs| - 1], p) + (if p(cs[|cs| - 1]) then [|cs| - 1] else [])
  }

  function FinalP(numeroFrames: map<string, int>): Comercial -> bool
  {
    c => EsFinal(c, numeroFrames)
  }

  function SigueP(frames: seq<Frame>, numeroFrames: map<string, int>, detecciones: seq<Deteccion>): Comercial -> bool
  {
    c => Sigue(c, frames, numeroFrames) && !Completado(detecciones, c.nombre)
  }

  lemma {:induction false} DeteccionesPosiciones(cs: seq<Comercial>, tiempo: real, numeroFrames: map<string, int>)
    ensures var pos := Posiciones(cs, FinalP(numeroFrames));
      |Detecciones(cs, tiempo, numeroFrames)| == |pos| &&
      forall i :: 0 <= i < |pos| ==> Detecciones(cs, tiempo, numeroFrames)[i] == DeteccionDe(cs[pos[i]], tiempo)
  {
    if cs != [] {
      DeteccionesPosiciones(cs[..|cs| - 1], tiempo, numeroFrames);
    }
  }

  lemma {:induction false} SobrevivientesPosiciones(cs: seq<Comercial>, frames: seq<Frame>,
                                                    numeroFrames: map<string, int>, detecciones: seq<Deteccion>)
    ensures var pos := Posiciones(cs, SigueP(frames, numeroFrames, detecciones));
      |Sobrevivientes(cs, frames, numeroFrames, detecciones)| == |pos| &&
      forall i :: 0 <= i < |pos| ==> Sobrevivientes(cs, frames, numeroFrames, detecciones)[i] == Avanzado(cs[pos[i]], frames)
  {
    if cs != [] {
      SobrevivientesPosiciones(cs[..|cs| - 1], frames, numeroFrames, detecciones);
    }
  }

  /**
   * Every candidate at the last index of its clip reports exactly one
   * detection, in list order, with the duration from its start to this step;
   * no other candidate reports one. Two candidates of one clip that are both
   * complete both report.
   */
  lemma PasoDetecciones(cs: seq<Comercial>, tiempo: real, frames: seq<Frame>, numeroFrames: map<string, int>)
    ensures var evs := PasoEspec(cs, tiempo, frames, numeroFrames).detecciones;
      var pos := Posiciones(cs, FinalP(numeroFrames));
      |evs| == |pos| &&
      (forall i :: 0 <= i < |pos| ==>
        EsFinal(cs[pos[i]], numeroFrames) &&
        evs[i].nombre == cs[pos[i]].nombre && evs[i].tiempoInicio == cs[pos[i]].tiempoInicio &&
        evs[i].duracion == tiempo - cs[pos[i]].tiempoInicio) &&
      (forall j :: 0 <= j < |cs| && EsFinal(cs[j], numeroFrames) ==> DeteccionDe(cs[j], tiempo) in evs)
  {
    DeteccionesPosiciones(cs, tiempo, numeroFrames);
    var evs := PasoEspec(cs, tiempo, frames, numeroFrames).detecciones;
    var pos := Posiciones(cs, FinalP(numeroFrames));
    forall j | 0 <= j < |cs| && EsFinal(cs[j], numeroFrames) ensures DeteccionDe(cs[j], tiempo) in evs {
      assert FinalP(numeroFrames)(cs[j]);
      var i :| 0 <= i < |pos| && pos[i] == j;
      assert evs[i] == DeteccionDe(cs[j], tiempo);
    }
  }

  /**
   * The candidates kept by a step, in their old relative order, are exactly
   * the old ones that were not complete, stayed within the error budget after
   * advancing, and whose clip no complete candidate shares. Each moved one
   * frame on, counted a miss exactly when the new index is not matched, and
   * kept its clip and start time. After them comes at most one new candidate,
   * started at this step with no misses at the start found among the
   * neighbours.
   */
  lemma PasoComerciales(cs: seq<Comercial>, tiempo: real, frames: seq<Frame>, numeroFrames: map<string, int>)
    ensures var r := PasoEspec(cs, tiempo, frames, numeroFrames);
      var pos := Posiciones(cs, SigueP(frames, numeroFrames, r.detecciones));
      var inicio := Inicio(frames, MAXIMO_INICIAL);
      |r.comerciales| == |pos| + (if inicio.0 != -1 then 1 else 0) &&
      (forall j :: 0 <= j < |cs| ==>
        (j in pos <==> !EsFinal(cs[j], numeroFrames) && !Descartado(Avanzado(cs[j], frames)) &&
                       !Completado(r.detecciones, cs[j].nombre))) &&
      (forall i :: 0 <= i < |pos| ==>
        r.comerciales[i].nombre == cs[pos[i]].nombre &&
        r.comerciales[i].tiempoInicio == cs[pos[i]].tiempoInicio &&
        r.comerciales[i].indice == cs[pos[i]].indice + 1 &&
        r.comerciales[i].errores ==
          (if Encontrado(cs[pos[i]].nombre, cs[pos[i]].indice + 1, frames, RANGO)
           then cs[pos[i]].errores else cs[pos[i]].errores + 1) &&
        !(r.comerciales[i].errores >= 10 || (r.comerciales[i].indice < 10 && r.comerciales[i].errores > 3))) &&
      (inicio.0 != -1 ==> r.comerciales[|pos|] == Comercial(inicio.1, inicio.0, tiempo, 0))
  {
    var r := PasoEspec(cs, tiempo, frames, numeroFrames);
    SobrevivientesPosiciones(cs, frames, numeroFrames, r.detecciones);
  }

  /**
   * Conflict resolution: no kept candidate shares its clip with a candidate
   * that completed in this step.
   */
  lemma PasoConflicto(cs: seq<Comercial>, tiempo: real, frames: seq<Frame>, numeroFrames: map<string, int>)
    ensures var r := PasoEspec(cs, tiempo, frames, numeroFrames);
      var kept := |Sobrevivientes(cs, frames, numeroFrames, r.detecciones)|;
      forall i, j :: 0 <= i < kept && 0 <= j < |cs| && EsFinal(cs[j], numeroFrames) ==>
        r.comerciales[i].nombre != cs[j].nombre
  {
    var r := PasoEspec(cs, tiempo, frames, numeroFrames);
    var evs := r.detecciones;
    var sigue := SigueP(frames, numeroFrames, evs);
    var pos := Posiciones(cs, sigue);
    SobrevivientesPosiciones(cs, frames, numeroFrames, evs);
    PasoDetecciones(cs, tiempo, frames, numeroFrames);
    forall i, j | 0 <= i < |pos| && 0 <= j < |cs| && EsFinal(cs[j], numeroFrames)
      ensures r.comerciales[i].nombre != cs[j].nombre
    {
      assert sigue(cs[pos[i]]);
      var e :| e in evs && e == DeteccionDe(cs[j], tiempo);
      var q :| 0 <= q < |evs| && evs[q] == e;
      assert evs[q].nombre == cs[j].nombre;
    }
  }

  // ---------------------------------------------------------------------------
  // The tracker object and the run
  // ---------------------------------------------------------------------------

  /** Every candidate's clip has a known frame count. */
  predicate Conocidos(cs: seq<Comercial>, numeroFrames: map<string, int>)
  {
    forall i :: 0 <= i < |cs| ==> cs[i].nombre in numeroFrames
  }

  /** The start found in `frames`, if any, names a clip with a known frame count. */
  predicate InicioConocido(frames: seq<Frame>, numeroFrames: map<string, int>)
  {
    Inicio(frames, MAXIMO_INICIAL).0 != -1 ==> Inicio(frames, MAXIMO_INICIAL).1 in numeroFrames
  }

  lemma {:induction false} SobrevivientesConocidos(cs: seq<Comercial>, frames: seq<Frame>,
                                                   numeroFrames: map<string, int>, detecciones: seq<Deteccion>)
    requires Conocidos(cs, numeroFrames)
    ensures Conocidos(Sobrevivientes(cs, frames, numeroFrames, detecciones), numeroFrames)
  {
    if cs != [] {
      SobrevivientesConocidos(cs[..|cs| - 1], frames, numeroFrames, detecciones);
    }
  }

  /** The state and all detections after the tracker has seen `lista` from an empty start. */
  function Recorrido(lista: seq<Cercanos>, numeroFrames: map<string, int>): Resultado
  {
    if lista == [] then Resultado([], [])
    else
      var antes := Recorrido(lista[..|lista| - 1], numeroFrames);
      var ultimo := lista[|lista| - 1];
      var paso := PasoEspec(antes.comerciales, ultimo.tiempo, ultimo.frames, numeroFrames);
      Resultado(paso.comerciales, antes.detecciones + paso.detecciones)
  }

  /**
   * When every start found names a clip with a known frame count, so does
   * every live candidate: the run never looks up an unknown clip.
   */
  lemma {:induction false} RecorridoConocidos(lista: seq<Cercanos>, numeroFrames: map<string, int>)
    requires forall j :: 0 <= j < |lista| ==> InicioConocido(lista[j].frames, numeroFrames)
    ensures Conocidos(Recorrido(lista, numeroFrames).comerciales, numeroFrames)
  {
    if lista != [] {
      var prev := lista[..|lista| - 1];
      var ultimo := lista[|lista| - 1];
      RecorridoConocidos(prev, numeroFrames);
      var antes := Recorrido(prev, numeroFrames);
      var evs := Detecciones(antes.comerciales, ultimo.tiempo, numeroFrames);
      SobrevivientesConocidos(antes.comerciales, ultimo.frames, numeroFrames, evs);
      assert InicioConocido(ultimo.frames, numeroFrames);
    }
  }

  lemma {:induction false} DeteccionesOrigen(cs: seq<Comercial>, tiempo: real, numeroFrames: map<string, int>)
    ensures forall e :: e in Detecciones(cs, tiempo, numeroFrames) ==>
      exists c :: c in cs && EsFinal(c, numeroFrames) && e == DeteccionDe(c, tiempo)
  {
    if cs != [] {
      DeteccionesOrigen(cs[..|cs| - 1], tiempo, numeroFrames);
      assert forall c :: c in cs[..|cs| - 1] ==> c in cs;
    }
  }

  lemma {:induction false} SobrevivientesOrigen(cs: seq<Comercial>, frames: seq<Frame>,
                                                numeroFrames: map<string, int>, detecciones: seq<Deteccion>)
    ensures forall c' :: c' in Sobrevivientes(cs, frames, numeroFrames, detecciones) ==>
      exists c :: c in cs && Sigue(c, frames, numeroFrames) && c' == Avanzado(c, frames)
  {
    if cs != [] {
      SobrevivientesOrigen(cs[..|cs| - 1], frames, numeroFrames, detecciones);
      assert forall c :: c in cs[..|cs| - 1] ==> c in cs;
    }
  }

  /** Time stamps strictly increase along the list. */
  predicate Crecientes(lista: seq<Cercanos>)
  {
    forall i, j :: 0 <= i < j < |lista| ==> lista[i].tiempo < lista[j].tiempo
  }

  /**
   * With strictly increasing time stamps every detection has a positive
   * duration, because a candidate is first examined on the step after the
   * one that spawned it; every live candidate started no later than the last
   * time stamp seen.
   */
  lemma {:induction false} RecorridoDuraciones(lista: seq<Cercanos>, numeroFrames: map<string, int>)
    requires Crecientes(lista)
    ensures forall e :: e in Recorrido(lista, numeroFrames).detecciones ==> e.duracion > 0.0
    ensures |lista| > 0 ==>
      forall c :: c in Recorrido(lista, numeroFrames).comerciales ==> c.tiempoInicio <= lista[|lista| - 1].tiempo
  {
    if lista != [] {
      var n := |lista|;
      var prev := lista[..n - 1];
      var ultimo := lista[n - 1];
      assert Crecientes(prev);
      RecorridoDuraciones(prev, numeroFrames);
      var antes := Recorrido(prev, numeroFrames);
      assert n > 1 ==> prev[n - 2].tiempo < ultimo.tiempo;
      PasoDuraciones(antes.comerciales, ultimo.tiempo, ultimo.frames, numeroFrames);
    }
  }

  /** A step at a time later than every live candidate's start reports positive durations only. */
  lemma PasoDuraciones(cs: seq<Comercial>, tiempo: real, frames: seq<Frame>, numeroFrames: map<string, int>)
    requires forall c :: c in cs ==> c.tiempoInicio < tiempo
    ensures forall e :: e in PasoEspec(cs, tiempo, frames, numeroFrames).detecciones ==> e.duracion > 0.0
    ensures forall c :: c in PasoEspec(cs, tiempo, frames, numeroFrames).comerciales ==> c.tiempoInicio <= tiempo
  {
    var evs := Detecciones(cs, tiempo, numeroFrames);
    DeteccionesOrigen(cs, tiempo, numeroFrames);
    SobrevivientesOrigen(cs, frames, numeroFrames, evs);
  }

  /** The start found in `frames`, if any, names a known clip and lies within it. */
  predicate InicioDentro(frames: seq<Frame>, numeroFrames: map<string, int>)
  {
    var inicio := Inicio(frames, MAXIMO_INICIAL);
    inicio.0 != -1 ==> inicio.1 in numeroFrames && inicio.0 <= numeroFrames[inicio.1] - 1
  }

  /**
   * When every start found lies within its clip, no live candidate is past
   * the last frame of its clip; every live candidate has fewer than ten misses.
   */
  lemma {:induction false} RecorridoAcotado(lista: seq<Cercanos>, numeroFrames: map<string, int>)
    requires forall j :: 0 <= j < |lista| ==> InicioDentro(lista[j].frames, numeroFrames)
    ensures forall c :: c in Recorrido(lista, numeroFrames).comerciales ==>
      c.nombre in numeroFrames && c.indice <= numeroFrames[c.nombre] - 1
    ensures forall c :: c in Recorrido(lista, numeroFrames).comerciales ==> c.errores < 10
  {
    if lista != [] {
      var n := |lista|;
      var prev := lista[..n - 1];
      var ultimo := lista[n - 1];
      assert forall j :: 0 <= j < |prev| ==> prev[j] == lista[j];
      RecorridoAcotado(prev, numeroFrames);
      var cs := Recorrido(prev, numeroFrames).comerciales;
      PasoAcotado(cs, ultimo.tiempo, ultimo.frames, numeroFrames);
      assert Recorrido(lista, numeroFrames).comerciales == PasoEspec(cs, ultimo.tiempo, ultimo.frames, numeroFrames).comerciales;
    }
  }

  /**
   * A candidate on the last frame of its clip is completed rather than
   * advanced, so candidates within their clip stay so after a step, and so
   * does a spawned one whose start lies within its clip.
   */
  lemma PasoAcotado(cs: seq<Comercial>, tiempo: real, frames: seq<Frame>, numeroFrames: map<string, int>)
    requires InicioDentro(frames, numeroFrames)
    requires forall c :: c in cs ==> c.nombre in numeroFrames && c.indice <= numeroFrames[c.nombre] - 1
    ensures forall c :: c in PasoEspec(cs, tiempo, frames, numeroFrames).comerciales ==>
      c.nombre in numeroFrames && c.indice <= numeroFrames[c.nombre] - 1
    ensures forall c :: c in PasoEspec(cs, tiempo, frames, numeroFrames).comerciales ==> c.errores < 10
  {
    var evs := Detecciones(cs, tiempo, numeroFrames);
    SobrevivientesOrigen(cs, frames, numeroFrames, evs);
  }

  /** The start found in a two-entry neighbour list. */
  lemma InicioDos(a: Frame, b: Frame, maximo: int)
    ensures Escaneo([a, b], maximo) ==
      var tras := if a.indice <= maximo then (a.indice, a.comercial) else (maximo + 1, "");
      if b.indice <= maximo && b.indice < tras.0 then (b.indice, b.comercial) else tras
  {
    assert [a, b][..1] == [a];
    assert [a][..0] == [];
    assert Escaneo([], maximo) == (maximo + 1, "");
    assert Escaneo([a], maximo) == if a.indice <= maximo then (a.indice, a.comercial) else (maximo + 1, "");
  }

  /** The run over one more neighbour list is one more step. */
  lemma RecorridoUnoMas(lista: seq<Cercanos>, k: nat, numeroFrames: map<string, int>)
    requires k < |lista|
    ensures var antes := Recorrido(lista[..k], numeroFrames);
      var paso := PasoEspec(antes.comerciales, lista[k].tiempo, lista[k].frames, numeroFrames);
      Recorrido(lista[..k + 1], numeroFrames) == Resultado(paso.comerciales, antes.detecciones + paso.detecciones)
  {
    assert lista[..k + 1][..k] == lista[..k];
  }

  /** One more step of the run, from a known state to a known state. */
  lemma RecorridoPaso(lista: seq<Cercanos>, k: nat, numeroFrames: map<string, int>,
                      cs: seq<Comercial>, evs: seq<Deteccion>, cs2: seq<Comercial>, evs2: seq<Deteccion>)
    requires k < |lista|
    requires Recorrido(lista[..k], numeroFrames) == Resultado(cs, evs)
    requires PasoEspec(cs, lista[k].tiempo, lista[k].frames, numeroFrames) == Resultado(cs2, evs2)
    ensures Recorrido(lista[..k + 1], numeroFrames) == Resultado(cs2, evs + evs2)
  {
    RecorridoUnoMas(lista, k, numeroFrames);
  }

  /** A step over two candidates, one after the other. */
  lemma PasoDos(c1: Comercial, c2: Comercial, tiempo: real, frames: seq<Frame>, numeroFrames: map<string, int>)
    ensures var evs := Detecciones([c1, c2], tiempo, numeroFrames);
      evs == (if EsFinal(c1, numeroFrames) then [DeteccionDe(c1, tiempo)] else []) +
             (if EsFinal(c2, numeroFrames) then [DeteccionDe(c2, tiempo)] else []) &&
      Sobrevivientes([c1, c2], frames, numeroFrames, evs) ==
        (if Sigue(c1, frames, numeroFrames) && !Completado(evs, c1.nombre) then [Avanzado(c1, frames)] else []) +
        (if Sigue(c2, frames, numeroFrames) && !Completado(evs, c2.nombre) then [Avanzado(c2, frames)] else [])
  {
    assert [c1, c2][..1] == [c1];
    assert [c1][..0] == [];
    var evs := Detecciones([c1, c2], tiempo, numeroFrames);
    assert Detecciones([c1], tiempo, numeroFrames) ==
      (if EsFinal(c1, numeroFrames) then [DeteccionDe(c1, tiempo)] else []);
    assert Sobrevivientes([c1], frames, numeroFrames, evs) ==
      (if Sigue(c1, frames, numeroFrames) && !Completado(evs, c1.nombre) then [Avanzado(c1, frames)] else []);
  }

  /** With no candidates, a step only spawns, at the start found among the neighbours. */
  lemma PasoArranque(tiempo: real, frames: seq<Frame>, numeroFrames: map<string, int>)
    requires Inicio(frames, MAXIMO_INICIAL).0 != -1
    ensures var inicio := Inicio(frames, MAXIMO_INICIAL);
      PasoEspec([], tiempo, frames, numeroFrames) == Resultado([Comercial(inicio.1, inicio.0, tiempo, 0)], [])
  {
    assert Detecciones([], tiempo, numeroFrames) == [];
  }

  /**
   * One candidate that is not complete, has no misses and whose next frame is
   * among the neighbours moves on; the new candidate is spawned behind it.
   */
  lemma PasoUnoArranque(c: Comercial, tiempo: real, frames: seq<Frame>, numeroFrames: map<string, int>)
    requires c.errores == 0 && !EsFinal(c, numeroFrames)
    requires Encontrado(c.nombre, c.indice + 1, frames, RANGO)
    requires Inicio(frames, MAXIMO_INICIAL).0 != -1
    ensures var inicio := Inicio(frames, MAXIMO_INICIAL);
      PasoEspec([c], tiempo, frames, numeroFrames) ==
      Resultado([c.(indice := c.indice + 1), Comercial(inicio.1, inicio.0, tiempo, 0)], [])
  {
    assert [c][..0] == [];
    assert Detecciones([c], tiempo, numeroFrames) == [];
    assert Avanzado(c, frames) == c.(indice := c.indice + 1);
    assert Sobrevivientes([c], frames, numeroFrames, []) == [c.(indice := c.indice + 1)];
  }

  /** Two candidates of the same clip that are not complete both move on and match; nothing is spawned. */
  lemma PasoParejaAvanza(c1: Comercial, c2: Comercial, tiempo: real, frames: seq<Frame>, numeroFrames: map<string, int>)
    requires c1.nombre == c2.nombre && c1.indice == c2.indice && c1.errores == 0 && c2.errores == 0
    requires !EsFinal(c1, numeroFrames)
    requires Encontrado(c1.nombre, c1.indice + 1, frames, RANGO)
    requires Inicio(frames, MAXIMO_INICIAL).0 == -1
    ensures PasoEspec([c1, c2], tiempo, frames, numeroFrames) ==
      Resultado([c1.(indice := c1.indice + 1), c2.(indice := c2.indice + 1)], [])
  {
    PasoDos(c1, c2, tiempo, frames, numeroFrames);
  }

  /** Two complete candidates both report, in order, and nothing is left when nothing is spawned. */
  lemma PasoParejaFinal(c1: Comercial, c2: Comercial, tiempo: real, frames: seq<Frame>, numeroFrames: map<string, int>)
    requires EsFinal(c1, numeroFrames) && EsFinal(c2, numeroFrames)
    requires Inicio(frames, MAXIMO_INICIAL).0 == -1
    ensures PasoEspec([c1, c2], tiempo, frames, numeroFrames) ==
      Resultado([], [DeteccionDe(c1, tiempo), DeteccionDe(c2, tiempo)])
  {
    PasoDos(c1, c2, tiempo, frames, numeroFrames);
  }

  /** First list of the double detection: the candidate at frame 0 is spawned. */
  lemma DobleUno(lista: seq<Cercanos>, numeroFrames: map<string, int>, nombre: string)
    requires 0 < |lista| && Inicio(lista[0].frames, MAXIMO_INICIAL) == (0, nombre)
    ensures Recorrido(lista[..1], numeroFrames) == Resultado([Comercial(nombre, 0, lista[0].tiempo, 0)], [])
  {
    assert lista[..0] == [];
    PasoArranque(lista[0].tiempo, lista[0].frames, numeroFrames);
    RecorridoPaso(lista, 0, numeroFrames, [], [], [Comercial(nombre, 0, lista[0].tiempo, 0)], []);
  }

  /** Second list: the first candidate matches frame 1, and a second one is spawned there. */
  lemma DobleDos(lista: seq<Cercanos>, numeroFrames: map<string, int>, c: Comercial)
    requires 1 < |lista| && Recorrido(lista[..1], numeroFrames) == Resultado([c], [])
    requires c.indice == 0 && c.errores == 0 && !EsFinal(c, numeroFrames)
    requires Encontrado(c.nombre, 1, lista[1].frames, RANGO)
    requires Inicio(lista[1].frames, MAXIMO_INICIAL) == (1, c.nombre)
    ensures Recorrido(lista[..2], numeroFrames) ==
      Resultado([c.(indice := 1), Comercial(c.nombre, 1, lista[1].tiempo, 0)], [])
  {
    PasoUnoArranque(c, lista[1].tiempo, lista[1].frames, numeroFrames);
    RecorridoPaso(lista, 1, numeroFrames, [c], [], [c.(indice := 1), Comercial(c.nombre, 1, lista[1].tiempo, 0)], []);
  }

  /** A later list with the clip's next frame and no start: both candidates move on. */
  lemma DobleSigue(lista: seq<Cercanos>, numeroFrames: map<string, int>, k: nat, c1: Comercial, c2: Comercial)
    requires k < |lista| && Recorrido(lista[..k], numeroFrames) == Resultado([c1, c2], [])
    requires c1.nombre == c2.nombre && c1.indice == c2.indice && c1.errores == 0 && c2.errores == 0
    requires !EsFinal(c1, numeroFrames)
    requires Encontrado(c1.nombre, c1.indice + 1, lista[k].frames, RANGO)
    requires Inicio(lista[k].frames, MAXIMO_INICIAL).0 == -1
    ensures Recorrido(lista[..k + 1], numeroFrames) ==
      Resultado([c1.(indice := c1.indice + 1), c2.(indice := c2.indice + 1)], [])
  {
    PasoParejaAvanza(c1, c2, lista[k].tiempo, lista[k].frames, numeroFrames);
    RecorridoPaso(lista, k, numeroFrames, [c1, c2], [], [c1.(indice := c1.indice + 1), c2.(indice := c2.indice + 1)], []);
  }

  /** The list after both candidates reached the last frame: both report. */
  lemma DobleFin(lista: seq<Cercanos>, numeroFrames: map<string, int>, k: nat, c1: Comercial, c2: Comercial)
    requires k < |lista| && Recorrido(lista[..k], numeroFrames) == Resultado([c1, c2], [])
    requires EsFinal(c1, numeroFrames) && EsFinal(c2, numeroFrames)
    requires Inicio(lista[k].frames, MAXIMO_INICIAL).0 == -1
    ensures Recorrido(lista[..k + 1], numeroFrames) ==
      Resultado([], [DeteccionDe(c1, lista[k].tiempo), DeteccionDe(c2, lista[k].tiempo)])
  {
    PasoParejaFinal(c1, c2, lista[k].tiempo, lista[k].frames, numeroFrames);
    RecorridoPaso(lista, k, numeroFrames, [c1, c2], [], [], [DeteccionDe(c1, lista[k].tiempo), DeteccionDe(c2, lista[k].tiempo)]);
  }

  /** The state of the run in the double detection after the first `k` lists. */
  function DobleEstado(nombre: string, k: nat): Resultado
  {
    if k == 1 then Resultado([Comercial(nombre, 0, 0.0, 0)], [])
    else if k < 5 then Resultado([Comercial(nombre, k - 1, 0.0, 0), Comercial(nombre, k - 1, 1.0, 0)], [])
    else Resultado([], [Deteccion(nombre, 0.0, 4.0), Deteccion(nombre, 1.0, 3.0)])
  }

  /** What the clip's lists provide: start frames at 0 and 1, then no start and the clip's next frame. */
  predicate DobleListas(lista: seq<Cercanos>, numeroFrames: map<string, int>, nombre: string)
  {
    |lista| == 5 && (forall j :: 0 <= j < 5 ==> lista[j].tiempo == j as real) &&
    nombre in numeroFrames && numeroFrames[nombre] == 4 &&
    Inicio(lista[0].frames, MAXIMO_INICIAL) == (0, nombre) &&
    Inicio(lista[1].frames, MAXIMO_INICIAL) == (1, nombre) &&
    (forall j :: 2 <= j < 5 ==> Inicio(lista[j].frames, MAXIMO_INICIAL).0 == -1) &&
    (forall j :: 1 <= j < 4 ==> Encontrado(nombre, j, lista[j].frames, RANGO))
  }

  /** From the state after `k` lists the run reaches the two detections. */
  lemma {:induction false} DobleDesde(lista: seq<Cercanos>, numeroFrames: map<string, int>, nombre: string, k: nat)
    requires DobleListas(lista, numeroFrames, nombre)
    requires 1 <= k <= 5 && Recorrido(lista[..k], numeroFrames) == DobleEstado(nombre, k)
    ensures k <= 4 ==> Recorrido(lista[..4], numeroFrames).detecciones == []
    ensures Recorrido(lista[..5], numeroFrames) == DobleEstado(nombre, 5)
    decreases 5 - k
  {
    if k == 1 {
      DobleDos(lista, numeroFrames, Comercial(nombre, 0, 0.0, 0));
      DobleDesde(lista, numeroFrames, nombre, 2);
    } else if k < 4 {
      DobleSigue(lista, numeroFrames, k, Comercial(nombre, k - 1, 0.0, 0), Comercial(nombre, k - 1, 1.0, 0));
      DobleDesde(lista, numeroFrames, nombre, k + 1);
    } else if k == 4 {
      DobleFin(lista, numeroFrames, 4, Comercial(nombre, 3, 0.0, 0), Comercial(nombre, 3, 1.0, 0));
    }
  }

  /**
   * A four-frame clip aired from time 0.0, with one neighbour list per
   * second: its first two frames both qualify as starts, so two candidates
   * are spawned, at 0.0 and at 1.0. The first one advances to index 1 on the
   * step that spawns the second at index 1, so from then on both stand on the
   * same index and follow the clip together. Nothing is reported up to time
   * 3.0; at 4.0, when both stand on the last frame, the clip is reported
   * twice, with durations 4.0 and 3.0.
   */
  lemma RecorridoDobleDeteccion(lista: seq<Cercanos>, numeroFrames: map<string, int>, nombre: string)
    requires DobleListas(lista, numeroFrames, nombre)
    ensures Recorrido(lista[..4], numeroFrames).detecciones == []
    ensures Recorrido(lista, numeroFrames).detecciones == [Deteccion(nombre, 0.0, 4.0), Deteccion(nombre, 1.0, 3.0)]
  {
    DobleUno(lista, numeroFrames, nombre);
    DobleDesde(lista, numeroFrames, nombre, 1);
    assert lista[..5] == lista;
  }

  function EjemploNumeroFrames(): map<string, int>
  {
    map["adA" := 4, "x" := 60]
  }

  /**
   * The clip "adA" of four frames, aired from time 0.0: at times 0.0 to 3.0
   * each neighbour list holds the matching frame and a filler, at 4.0 only
   * fillers.
   */
  function EjemploLista(): seq<Cercanos>
  {
    [Cercanos(0.0, [Frame("adA", 0, 0.0), Frame("x", 50, 0.0)]),
     Cercanos(1.0, [Frame("adA", 1, 0.0), Frame("x", 50, 0.0)]),
     Cercanos(2.0, [Frame("adA", 2, 0.0), Frame("x", 50, 0.0)]),
     Cercanos(3.0, [Frame("adA", 3, 0.0), Frame("x", 50, 0.0)]),
     Cercanos(4.0, [Frame("x", 50, 0.0), Frame("x", 51, 0.0)])]
  }

  lemma EjemploInicios()
    ensures Inicio(EjemploLista()[0].frames, MAXIMO_INICIAL) == (0, "adA")
    ensures Inicio(EjemploLista()[1].frames, MAXIMO_INICIAL) == (1, "adA")
    ensures forall j :: 2 <= j < 5 ==> Inicio(EjemploLista()[j].frames, MAXIMO_INICIAL) == (-1, "")
  {
    InicioDos(Frame("adA", 0, 0.0), Frame("x", 50, 0.0), MAXIMO_INICIAL);
    InicioDos(Frame("adA", 1, 0.0), Frame("x", 50, 0.0), MAXIMO_INICIAL);
    InicioDos(Frame("adA", 2, 0.0), Frame("x", 50, 0.0), MAXIMO_INICIAL);
    InicioDos(Frame("adA", 3, 0.0), Frame("x", 50, 0.0), MAXIMO_INICIAL);
    InicioDos(Frame("x", 50, 0.0), Frame("x", 51, 0.0), MAXIMO_INICIAL);
  }

  /** The example has the shape of the double detection, and every start it finds names a known clip. */
  lemma EjemploListas()
    ensures DobleListas(EjemploLista(), EjemploNumeroFrames(), "adA")
    ensures forall j :: 0 <= j < 5 ==> InicioConocido(EjemploLista()[j].frames, EjemploNumeroFrames())
  {
    var l := EjemploLista();
    EjemploInicios();
    assert l[1].frames[0] == Frame("adA", 1, 0.0);
    assert l[2].frames[0] == Frame("adA", 2, 0.0);
    assert l[3].frames[0] == Frame("adA", 3, 0.0);
    assert forall j :: 1 <= j < 4 ==> Encontrado("adA", j, l[j].frames, RANGO);
  }

  lemma EjemploDosDetecciones(lista: seq<Cercanos>, nf: map<string, int>)
    requires lista == EjemploLista() && nf == EjemploNumeroFrames()
    ensures forall j :: 0 <= j < |lista| ==> InicioConocido(lista[j].frames, nf)
    ensures Recorrido(lista[..4], nf).detecciones == []
    ensures Recorrido(lista, nf).detecciones == [Deteccion("adA", 0.0, 4.0), Deteccion("adA", 1.0, 3.0)]
  {
    EjemploListas();
    RecorridoDobleDeteccion(lista, nf, "adA");
  }

  /** One candidate that is not complete moves one frame on, counting a miss when that frame is not matched. */
  method AvanzarUno(c: Comercial, frames: seq<Frame>) returns (nuevo: Comercial, descartado: bool)
    ensures nuevo == Avanzado(c, frames)
    ensures descartado == Descartado(nuevo)
  {
    nuevo := c.(indice := c.indice + 1);
    var hallado := BuscarIndice(nuevo.nombre, nuevo.indice, frames, RANGO);
    if !hallado {
      nuevo := nuevo.(errores := nuevo.errores + 1);
    }
    descartado := nuevo.errores >= 10 || (nuevo.indice < 10 && nuevo.errores > 3);
  }

  /** One more candidate adds its detection, if complete, at the end. */
  lemma DeteccionesPrefijo(cs: seq<Comercial>, i: nat, tiempo: real, numeroFrames: map<string, int>)
    requires i < |cs|
    ensures Detecciones(cs[..i + 1], tiempo, numeroFrames) ==
      Detecciones(cs[..i], tiempo, numeroFrames) + (if EsFinal(cs[i], numeroFrames) then [DeteccionDe(cs[i], tiempo)] else [])
  {
    assert cs[..i + 1][..i] == cs[..i];
  }

  /**
   * The advancing pass over the candidates: complete ones report a detection
   * and their clip name, the others move one frame on and are marked when
   * over the error budget.
   */
  method Avanzar(cs: seq<Comercial>, tiempo: real, frames: seq<Frame>, numeroFrames: map<string, int>)
    returns (cur: seq<Comercial>, eliminados: seq<bool>, completados: seq<string>, detecciones: seq<Deteccion>)
    requires Conocidos(cs, numeroFrames)
    ensures |cur| == |cs| && |eliminados| == |cs|
    ensures forall m :: 0 <= m < |cs| ==> cur[m] == Movido(cs[m], frames, numeroFrames)
    ensures forall m :: 0 <= m < |cs| ==>
      eliminados[m] == (!EsFinal(cs[m], numeroFrames) && Descartado(Avanzado(cs[m], frames)))
    ensures detecciones == Detecciones(cs, tiempo, numeroFrames)
    ensures |completados| == |detecciones|
    ensures forall q :: 0 <= q < |completados| ==> completados[q] == detecciones[q].nombre
    ensures forall m :: 0 <= m < |cs| && EsFinal(cs[m], numeroFrames) ==> cs[m].nombre in completados
  {
    cur := cs;
    eliminados := seq(|cs|, _ => false);
    completados := [];
    detecciones := [];
    for i := 0 to |cs|
      invariant |cur| == |cs| && |eliminados| == |cs|
      invariant forall m :: i <= m < |cs| ==> cur[m] == cs[m]
      invariant forall m :: 0 <= m < i ==> cur[m] == Movido(cs[m], frames, numeroFrames)
      invariant forall m :: 0 <= m < |cs| ==>
        eliminados[m] == (m < i && !EsFinal(cs[m], numeroFrames) && Descartado(Avanzado(cs[m], frames)))
      invariant detecciones == Detecciones(cs[..i], tiempo, numeroFrames)
      invariant |completados| == |detecciones|
      invariant forall q :: 0 <= q < |completados| ==> completados[q] == detecciones[q].nombre
      invariant forall m :: 0 <= m < i && EsFinal(cs[m], numeroFrames) ==> cs[m].nombre in completados
    {
      var com := cur[i];
      DeteccionesPrefijo(cs, i, tiempo, numeroFrames);
      if com.indice == numeroFrames[com.nombre] - 1 {
        assert EsFinal(cs[i], numeroFrames);
        var duracion := tiempo - com.tiempoInicio;
        detecciones := detecciones + [Deteccion(com.nombre, com.tiempoInicio, duracion)];
        completados := completados + [com.nombre];
      } else {
        var descartado;
        com, descartado := AvanzarUno(com, frames);
        if descartado {
          eliminados := eliminados[i := true];
        }
        cur := cur[i := com];
      }
    }
    assert cs[..|cs|] == cs;
  }

  /** The sweep: marks every candidate whose clip name is among `completados`. */
  method MarcarCompletados(cur: seq<Comercial>, eliminados: seq<bool>, completados: seq<string>)
    returns (marcados: seq<bool>)
    requires |eliminados| == |cur|
    ensures |marcados| == |cur|
    ensures forall m :: 0 <= m < |cur| ==> marcados[m] == (eliminados[m] || cur[m].nombre in completados)
  {
    marcados := eliminados;
    for q := 0 to |completados|
      invariant |marcados| == |cur|
      invariant forall m :: 0 <= m < |cur| ==> marcados[m] == (eliminados[m] || cur[m].nombre in completados[..q])
    {
      for m := 0 to |cur|
        invariant |marcados| == |cur|
        invariant forall m' :: 0 <= m' < |cur| ==>
          marcados[m'] == (eliminados[m'] || cur[m'].nombre in completados[..q] ||
                           (m' < m && cur[m'].nombre == completados[q]))
      {
        if cur[m].nombre == completados[q] && !marcados[m] {
          marcados := marcados[m := true];
        }
      }
      assert completados[..q + 1] == completados[..q] + [completados[q]];
    }
    assert completados[..|completados|] == completados;
  }

  /**
   * After the sweep a candidate is marked exactly when it does not go on: it
   * was complete, it spent its error budget, or a complete candidate shares
   * its clip.
   */
  lemma MarcadosExactos(cs: seq<Comercial>, cur: seq<Comercial>, eliminados: seq<bool>, marcados: seq<bool>,
                        completados: seq<string>, detecciones: seq<Deteccion>, frames: seq<Frame>,
                        numeroFrames: map<string, int>)
    requires |cur| == |cs| && |eliminados| == |cs| && |marcados| == |cs|
    requires forall m :: 0 <= m < |cs| ==> cur[m] == Movido(cs[m], frames, numeroFrames)
    requires forall m :: 0 <= m < |cs| ==>
      eliminados[m] == (!EsFinal(cs[m], numeroFrames) && Descartado(Avanzado(cs[m], frames)))
    requires forall m :: 0 <= m < |cs| ==> marcados[m] == (eliminados[m] || cur[m].nombre in completados)
    requires |completados| == |detecciones|
    requires forall q :: 0 <= q < |completados| ==> completados[q] == detecciones[q].nombre
    requires forall m :: 0 <= m < |cs| && EsFinal(cs[m], numeroFrames) ==> cs[m].nombre in completados
    ensures forall m :: 0 <= m < |cs| ==>
      marcados[m] == !(Sigue(cs[m], frames, numeroFrames) && !Completado(detecciones, cs[m].nombre))
  {
    forall m | 0 <= m < |cs|
      ensures marcados[m] == !(Sigue(cs[m], frames, numeroFrames) && !Completado(detecciones, cs[m].nombre))
    {
      assert cur[m].nombre == cs[m].nombre;
      if cs[m].nombre in completados {
        var q :| 0 <= q < |completados| && completados[q] == cs[m].nombre;
        assert detecciones[q].nombre == cs[m].nombre;
      }
      if Completado(detecciones, cs[m].nombre) {
        var q :| 0 <= q < |detecciones| && detecciones[q].nombre == cs[m].nombre;
        assert completados[q] == cs[m].nombre;
      }
    }
  }

  /** The removal pass: the unmarked candidates, in order, are the survivors of the step. */
  method Filtrar(cur: seq<Comercial>, marcados: seq<bool>, ghost cs: seq<Comercial>, ghost frames: seq<Frame>,
                 ghost numeroFrames: map<string, int>, ghost detecciones: seq<Deteccion>)
    returns (quedan: seq<Comercial>)
    requires |cur| == |cs| && |marcados| == |cs|
    requires forall m :: 0 <= m < |cs| ==>
      marcados[m] == !(Sigue(cs[m], frames, numeroFrames) && !Completado(detecciones, cs[m].nombre))
    requires forall m :: 0 <= m < |cs| && !marcados[m] ==> cur[m] == Avanzado(cs[m], frames)
    ensures quedan == Sobrevivientes(cs, frames, numeroFrames, detecciones)
  {
    quedan := [];
    for m := 0 to |cur|
      invariant quedan == Sobrevivientes(cs[..m], frames, numeroFrames, detecciones)
    {
      if !marcados[m] {
        quedan := quedan + [cur[m]];
      }
      assert cs[..m + 1][..m] == cs[..m];
    }
    assert cs[..|cs|] == cs;
  }

  class Rastreador {
    /** The live candidates, in the order they were spawned. */
    var comerciales: seq<Comercial>

    constructor ()
      ensures comerciales == []
    {
      comerciales := [];
    }

    /**
     * One time step: advance or complete each candidate, retire failed ones
     * and every one sharing a clip with a completed one, then spawn at most
     * one new candidate. Returns the detections in report order.
     */
    method Paso(tiempo: real, frames: seq<Frame>, numeroFrames: map<string, int>) returns (detecciones: seq<Deteccion>)
      requires Conocidos(comerciales, numeroFrames)
      modifies this
      ensures comerciales == PasoEspec(old(comerciales), tiempo, frames, numeroFrames).comerciales
      ensures detecciones == PasoEspec(old(comerciales), tiempo, frames, numeroFrames).detecciones
    {
      ghost var cs := comerciales;
      var cur, eliminados, completados;
      cur, eliminados, completados, detecciones := Avanzar(comerciales, tiempo, frames, numeroFrames);
      var marcados := MarcarCompletados(cur, eliminados, completados);
      MarcadosExactos(cs, cur, eliminados, marcados, completados, detecciones, frames, numeroFrames);
      var quedan := Filtrar(cur, marcados, cs, frames, numeroFrames, detecciones);
      var indice, nombre := BuscarInicio(frames, MAXIMO_INICIAL);
      if indice != -1 {
        quedan := quedan + [Comercial(nombre, indice, tiempo, 0)];
      }
      comerciales := quedan;
    }
  }

  /**
   * `buscar_comerciales` without its file and log I/O: runs a fresh tracker
   * over the neighbour lists in order and collects every detection. A
   * candidate spawned from the last list is never looked up, so only the
   * starts of the earlier lists need a known clip.
   */
  method BuscarComerciales(listaCercanos: seq<Cercanos>, numeroFrames: map<string, int>)
    returns (detecciones: seq<Deteccion>)
    requires forall j :: 0 <= j < |listaCercanos| - 1 ==> InicioConocido(listaCercanos[j].frames, numeroFrames)
    ensures detecciones == Recorrido(listaCercanos, numeroFrames).detecciones
  {
    var rastreador := new Rastreador();
    detecciones := [];
    for j := 0 to |listaCercanos|
      invariant rastreador.comerciales == Recorrido(listaCercanos[..j], numeroFrames).comerciales
      invariant detecciones == Recorrido(listaCercanos[..j], numeroFrames).detecciones
    {
      var cercanos := listaCercanos[j];
      assert listaCercanos[..j + 1][..j] == listaCercanos[..j];
      RecorridoConocidos(listaCercanos[..j], numeroFrames);
      var nuevas := rastreador.Paso(cercanos.tiempo, cercanos.frames, numeroFrames);
      detecciones := detecciones + nuevas;
    }
    assert listaCercanos[..|listaCercanos|] == listaCercanos;
  }
}
