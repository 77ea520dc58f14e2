# Commercial detection core, modelled in Dafny

This project models the core of a television-commercial detector written in Python. There are two parts.

- **Distancia** (`distancia.dfy`) is the bounded *k*-nearest-neighbour search. A buffer of `k` frames stays sorted by distance. It starts as `k` sentinel entries at distance 10^9, and every frame of every reference clip is offered to it in turn (`insertar_min_frame`, `frames_mas_cercanos_frame`). The L1 distance between two feature vectors is modelled on its own.
- **Busqueda** (`busqueda.dfy`) is the candidate tracker. It walks the per-frame neighbour lists of a broadcast in time order and keeps a list of candidate airings. A candidate is a clip name, the frame index it has reached, a start time and an error count. On each step every candidate is advanced or completed. Failed candidates are retired, and so is every candidate sharing a name with a completed one. At most one new candidate is spawned from the step's neighbour list (`buscar_indice`, `buscar_inicio`, the loop of `buscar_comerciales`).

The imperative parts keep their shape. `insertar_min_frame` is a method shifting entries in an `array<Frame>`. The scan is two nested loops filling that array. The tracker is a class `Rastreador` whose `comerciales` field is reassigned by `Paso`, and the passes inside one step are loops over sequences. Each method is proved against a specification function:

- `Insertado` is one offer to the buffer.
- `InsertarTodos` / `MasCercanos` is the whole scan.
- `PasoEspec` is one tracker step.
- `Recorrido` is a whole run.

The properties the code is meant to have are lemmas about those functions. They cover:

- order, permutation and which entry is dropped;
- buffer contents;
- first-minimum start selection;
- which candidates survive a step;
- same-name conflict resolution;
- positive durations;
- bounded indices and error counts;
- the absence of unknown-clip lookups;
- a worked run with two overlapping detections.

The distance function is a parameter `(seq<int>, seq<int>) -> real`, as `funcion` is in the source. Time stamps and distances are `real`. Frame indices are unbounded `int`.

Points where the code's behaviour differs from what its own documentation or the detector's design describes. The model follows the code:

- `insertar_min_frame`'s docstring says a frame is inserted only when it is closer than some current entry. The guard at `Distancia.py:104` rejects only a strictly farther frame. A frame that ties the last slot therefore replaces it (`InsertadoEmpateFinal`), and among equal distances a newcomer goes after the entries already present (`InsertadoPosicion`).
- A candidate that reaches its clip's last frame is reported on the *next* step (`Busqueda.py:152`), so its duration runs to that next time stamp.
- A second candidate for the same clip can be spawned while one is in flight. If both reach the last frame on the same step, both are reported (`PasoParejaFinal`, `RecorridoDobleDeteccion`, `EjemploDosDetecciones`). The same-name sweep at `Busqueda.py:176-179` runs after the reports, so it cannot suppress a detection already made.
- The start window used by the run is `maximo_inicial=1` (`Busqueda.py:185`), not the default 2. The failure rule is the fixed `errores >= 10 or indice < 10 and errores > 3`.
- When the least eligible index among the neighbours is `-1` (the sentinel entry), `buscar_inicio` returns `-1` and no candidate is spawned, even if other entries qualify.

## Model

| member | source | states |
|---|---|---|
| Distancia.DistanciaL1 | Distancia.py:10-20 | Sum of absolute differences of two equal-length integer vectors; never negative. |
| Distancia.DistanciaL1Simetrica | Distancia.py:10-20 | The L1 distance of two equal-length vectors is symmetric. |
| Distancia.DistanciaL1Cero | Distancia.py:10-20 | The L1 distance is zero exactly when the two vectors are equal. |
| Distancia.InsertarMinFrame | Distancia.py:94-114 | After the in-place shift the array equals `Insertado` of its old contents. A frame strictly farther than the last slot leaves the array unchanged. |
| Distancia.InsertadoOrdenado | Distancia.py:103-113 | Offering a frame to a buffer sorted by distance leaves it sorted. |
| Distancia.InsertadoPosicion | Distancia.py:107-113 | On a sorted buffer, an accepted frame lands right after every entry whose distance is at most its own. The entries behind it move one slot back and the last one drops out. |
| Distancia.InsertadoEmpateFinal | Distancia.py:103-113 | A frame whose distance equals the last slot's replaces that last entry. |
| Distancia.InsertadoMultiset | Distancia.py:94-114 | The buffer after an offer, plus the entry that left, is a permutation of the old buffer plus the offered frame. |
| Distancia.InsertadoCota | Distancia.py:94-114 | On a sorted buffer the entry that leaves is no closer than any entry that stays, and the last slot's distance never grows. |
| Distancia.FramesMasCercanosFrame | Distancia.py:117-137 | The result is `MasCercanos`: `k` sentinels with every frame of every video offered in video order and then frame order. It requires `k > 0` unless there are no reference frames. |
| Distancia.OfrecerVideo | Distancia.py:132-135 | The inner loop offers every frame of one video, in index order, to the buffer. |
| Distancia.InsertarTodosOrdenado | Distancia.py:128-137 | A sequence of offers keeps a sorted buffer sorted, and the last slot never gets farther. |
| Distancia.InsertarTodosMultiset | Distancia.py:128-137 | The final buffer plus everything that left it is a permutation of the initial buffer plus every offered frame. |
| Distancia.InsertarTodosSepara | Distancia.py:128-137 | Every entry that left the buffer is at least as far as the final last slot, so as far as any entry kept. |
| Distancia.InsertarTodosOrigen | Distancia.py:128-137 | Every final entry is an initial entry or an offered frame. |
| Distancia.InsertarTodosCentinelas | Distancia.py:128-129 | With at most as many offers as slots, all closer than the sentinel, the trailing slots are still sentinels. |
| Distancia.FramesDeValidos | Distancia.py:133-135 | Each frame offered for a video carries that video's name, a valid index and the distance to that frame. |
| Distancia.ReferenciasValidas | Distancia.py:132-135 | Each reference frame offered comes from some video, with a valid index and its true distance. |
| Distancia.ReferenciasVacias | Distancia.py:132-135 | No frame is offered exactly when every video has no frames. |
| Distancia.MasCercanosOrdenado | Distancia.py:117-137 | The result has exactly `k` entries, sorted by distance. |
| Distancia.MasCercanosMenores | Distancia.py:117-137 | The result and the discarded frames together are a permutation of the sentinels plus all reference frames. No kept entry is farther than any discarded one. |
| Distancia.MasCercanosValidos | Distancia.py:117-137 | Every returned entry is a sentinel or a genuine reference frame with its true distance. |
| Distancia.MasCercanosPocos | Distancia.py:117-137 | With at most `k` reference frames, all closer than 10^9, the slots past their count hold sentinels. |
| Busqueda.BuscarIndice | Busqueda.py:87-105 | Returns true exactly when some neighbour is a frame of the clip within `rango` of the index. |
| Busqueda.BuscarInicio | Busqueda.py:61-84 | The loop computes `Inicio`: the scan, then `(-1, "")` when the scan kept its initial index `maximo + 1`. |
| Busqueda.EscaneoSinElegibles | Busqueda.py:71-78 | When no neighbour has index at most the maximum, the scan keeps its initial state `(maximo + 1, "")`. |
| Busqueda.EscaneoMinimo | Busqueda.py:71-78 | When some neighbour is eligible, the scan ends on the first eligible neighbour of least index. |
| Busqueda.EscaneoCaracterizacion | Busqueda.py:71-78 | Both cases of the scan: no eligible neighbour, or the first one of least index. |
| Busqueda.InicioCaracterizacion | Busqueda.py:61-84 | With no eligible neighbour the result is `(-1, "")`. Otherwise it is the index and clip of the first eligible neighbour of least index, so when that first least entry is the sentinel `('', -1)` the result is `(-1, "")` as well. |
| Busqueda.InicioAcotado | Busqueda.py:61-84 | A start that is not `-1` is at most the maximum and is the index and clip of an actual neighbour. |
| Busqueda.AvanzarUno | Busqueda.py:164-173 | Moves a candidate one frame on and counts a miss when the next frame is not found. Reports whether it is over the error budget. |
| Busqueda.Avanzar | Busqueda.py:145-173 | The advancing pass. A complete candidate is left as it is and reports one detection (with its clip name) in list order. Any other candidate is advanced and marked when over budget. Every complete candidate's name is among those reported. |
| Busqueda.MarcarCompletados | Busqueda.py:176-179 | A candidate is marked when it was already marked or its clip name was completed. |
| Busqueda.MarcadosExactos | Busqueda.py:172-179 | After both passes, a candidate is marked exactly when it does not continue or its clip was detected this step. |
| Busqueda.Filtrar | Busqueda.py:181-182 | Removing the marked candidates leaves exactly `Sobrevivientes`, in list order. |
| Busqueda.Rastreador.constructor | Busqueda.py:135 | A new tracker has no candidates. |
| Busqueda.Rastreador.Paso | Busqueda.py:141-187 | One step sets the candidates and returns the detections given by `PasoEspec` of the old candidates. |
| Busqueda.PasoDetecciones | Busqueda.py:149-161 | The step reports one detection per complete candidate, in list order, with the candidate's name, start time, and duration equal to the step time minus the start time. |
| Busqueda.PasoComerciales | Busqueda.py:145-187 | The surviving candidates are those not complete, within budget after advancing, and not sharing a clip with a detection, each advanced by one. They keep their order, followed by the spawned candidate when `buscar_inicio` found one. |
| Busqueda.PasoConflicto | Busqueda.py:176-182 | No surviving candidate shares its clip name with a candidate completed in that step. |
| Busqueda.DeteccionesPosiciones | Busqueda.py:149-161 | The detections correspond one to one, in order, to the positions of the complete candidates. |
| Busqueda.SobrevivientesPosiciones | Busqueda.py:163-182 | The survivors correspond one to one, in order, to the positions of the candidates that continue, each advanced. |
| Busqueda.DeteccionesOrigen | Busqueda.py:152-161 | Every detection comes from a complete candidate. |
| Busqueda.SobrevivientesOrigen | Busqueda.py:163-182 | Every survivor is the advanced form of a candidate that continues. |
| Busqueda.SobrevivientesConocidos | Busqueda.py:152 | Survivors keep clip names with a known frame count. |
| Busqueda.PasoDuraciones | Busqueda.py:155-187 | If every candidate started before the step's time, every detection has a positive duration and every candidate after the step started no later. |
| Busqueda.RecorridoConocidos | Busqueda.py:141-187 | When every spawn names a known clip, every live candidate's name is a key of the frame counts, so the lookup at line 152 never fails. |
| Busqueda.BuscarComerciales | Busqueda.py:141-187 | The run over all neighbour lists returns exactly the detections of `Recorrido`, the fold of the step over the lists. |
| Busqueda.RecorridoDuraciones | Busqueda.py:141-187 | With strictly increasing time stamps, every detection of a run has a positive duration. Every live candidate started no later than the last time stamp. |
| Busqueda.PasoAcotado | Busqueda.py:152-187 | When every candidate is at most on its clip's last frame and the spawned start lies within its clip, the same holds after the step. A candidate on the last frame is completed, not advanced. Every candidate after a step has fewer than ten misses. |
| Busqueda.RecorridoAcotado | Busqueda.py:141-187 | When every start found lies within its clip, every live candidate of a run stays at most on its clip's last frame. Every live candidate has fewer than ten misses. |
| Busqueda.PasoParejaFinal | Busqueda.py:149-182 | A step over exactly two complete candidates, with nothing spawned, reports both in order and keeps no candidate. |
| Busqueda.RecorridoDobleDeteccion | Busqueda.py:141-187 | Take a four-frame clip seen at indices 0..3 over times 0..3, then a fifth list at time 4. Nothing is reported during the first four lists. The fifth reports both `(clip, 0.0, 4.0)` and `(clip, 1.0, 3.0)`. |
| Busqueda.EjemploDosDetecciones | Busqueda.py:141-187 | On a concrete five-list broadcast with clip `adA` of four frames, the run reports exactly two detections, `(adA, 0.0, 4.0)` and `(adA, 1.0, 3.0)`. |

## Left out

- File and log I/O is not modelled. This covers `leer_video`, `leer_videos`, `leer_cercanos`, `contar_frames_comerciales`, the log writes and prints in `buscar_comerciales`, the found-count, and the `Tarea1.py` driver. The neighbour lists and the clip frame counts are parameters instead.
- `distancia_l2` and `frames_mas_cercanos_video` are outside the modelled core.
- `distancia_l1` goes through `scipy.spatial.distance.cityblock`, which is not part of this model. `DistanciaL1` is the exact sum of absolute differences on integer vectors. Floating-point rounding is not modelled.
- The scan's distance function is an abstract total function returning `real`. The model does not instantiate it with `DistanciaL1`.
- Distancia.FramesMasCercanosFrame: requires `k > 0` whenever some video has a frame. With `k = 0` the source indexes `lista[-1]` of an empty list and raises, and that error path is not modelled.
- Busqueda.Rastreador.Paso: requires every candidate's clip to be a key of the frame counts. The source raises `KeyError` at line 152 otherwise, and that error path is not modelled. `RecorridoConocidos` shows the requirement holds for a whole run when every spawn names a known clip.
- Busqueda.BuscarComerciales: requires every start found in all but the last neighbour list to name a known clip, for the same reason. A candidate spawned from the last list is never looked up. Its contract states the detections and not the final candidate list, which the source discards.
- `list.remove` in the source removes candidate objects by identity. The model removes them by position, which is the same thing because each candidate appears once.
- The defaults `k = 5` and `funcion = distancia_l1` of `frames_mas_cercanos_frame` are not modelled as defaults. `k` and the distance function are explicit parameters.
