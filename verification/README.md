# Gestión de horarios — a Dafny model

This project models the core of a small timetabling application for a
university department. The application keeps a store of professors
(`Profesor`), each with a type (`tiempo_parcial`, `medio_tiempo`,
`tiempo_completo`) that fixes their weekly class-hour cap and a list of
recorded teaching blocks (`horarios`), and a store of courses (`Materia`)
with their weekly theory, practice and laboratory hours. On top of the stores
it offers:

- a greedy scheduler (`Horario.calcularHorarioSugerido`). It sorts the
  selected courses and, for each one, keeps the professors whose speciality
  fits. Per kind of class it walks those professors, most available first,
  and fills their free one-hour slots with blocks of at most two hours. It
  records every block it places in the professor's store;
- a backtracking scheduler (`asignarHorariosBacktracking`). It assigns every
  course to one professor who teaches it and one offered slot. It respects a
  lunch break, a limit of two classes a day, class-hour caps, availability
  windows and, optionally, weekends. It undoes a tentative assignment when
  the rest of the search fails;
- reports: the timetable summary (`generarResumenHorario`), the validation of
  the whole timetable (`validarHorarioCompleto`), the professor load and
  conflict checks of the professor model, and the semester summary of the
  course model;
- the pure parts of two controllers:
  - the day-by-hour grid shown by the timetable pages;
  - the guards of the "calcular" form and the "limpiar" action;
  - the dashboard and statistics aggregates;
  - the search page.

Each source component is one module:

| module | source |
|---|---|
| `Profesores` (profesor.dfy) | models/Profesor.js |
| `Materias` (materia.dfy) | models/Materia.js |
| `Intervalos` (intervalos.dfy) | the half-open overlap test shared by Profesor.js and Horario.js |
| `HorariosInforme` (horario_informe.dfy) | the reporting half of models/Horario.js |
| `Horarios` (horario.dfy) | the scheduling half of models/Horario.js |
| `Backtracking` (backtracking.dfy) | modules/horarioBacktracking.js |
| `HorariosController` (horarios_controller.dfy) | controllers/horariosController.js |
| `IndexController` (index_controller.dfy) | controllers/indexController.js |

The helper modules are:

- `Wrappers`: `Option` and `Result`.
- `Seqs`: selection by key, grouping and sums.
- `Sorting`: a stable insertion sort by a pair key. It stands for
  `Array.prototype.sort`, which is stable.
- `Text`: ASCII lower-casing and substring search.

Modelling conventions:

- The JSON files become immutable sequences of records. Every operation that
  writes takes the store and returns the new one.
- A thrown `Error` becomes `Err(message)`, with the source's message.
- `Date.now()` ids and ISO timestamps are parameters. Where several records
  are created in one call, the ids are a function `ids: nat -> string` read
  at a counter that the model threads through the call.
- `localeCompare` is a caller-supplied rank `rango: string -> int`.
- JavaScript's `x || d` on numbers and strings is modelled explicitly. An
  absent field is `None`, and `0` or `""` also select the default.

## Model

| member | source | states |
|---|---|---|
| Profesores.ValidarTipo | models/Profesor.js:33-35 | a type is valid exactly when it is `tiempo_parcial`, `medio_tiempo` or `tiempo_completo` |
| Profesores.GetHorasPorTipo | models/Profesor.js:28-30 | the result is always one of the three configured types; an unknown type gets the "Medio Tiempo" configuration (20 total, 16 class hours) |
| Profesores.HorasPorTipoTabla | models/Profesor.js:8-24 | the configured table: part time 10/8, full time 40/24, class hours never above total hours, unknown types fall back to half time |
| Profesores.Create | models/Profesor.js:60-86 | fails exactly when the chosen type (given, else `medio_tiempo`) is not one of the three; on success appends one record with the given id and timestamp, the request's name, surname, email and speciality, the given type or `medio_tiempo` when none is given, no blocks, no legacy weekly cap, and both caps of its type |
| Profesores.CreateKeepsIdsUnicos | models/Profesor.js:60-86 | creating with a fresh id keeps ids unique, and the new record is found at the end of the store |
| Profesores.Update | models/Profesor.js:89-141 | a missing id fails with the id in the message; an invalid type (given, else stored, else `medio_tiempo`) fails; otherwise only the found record changes, keeping id, blocks and creation date, taking the request's name, surname, email and speciality, the resolved type, both caps of that type and the update time |
| Profesores.UpdateKeepsIds | models/Profesor.js:89-141 | an update never changes the sequence of ids, so unique ids stay unique |
| Profesores.DeleteSpec | models/Profesor.js:147-157 | deleting fails iff no record has the id; otherwise exactly the records with other ids remain and the store shrinks by the number of matches |
| Profesores.AddHorario | models/Profesor.js:159-180 | fails iff the professor is missing; otherwise appends the block (type defaulting to `teoria`) to that professor only |
| Profesores.RemoveHorario | models/Profesor.js:182-193 | fails iff the professor is missing; otherwise removes the blocks with the id from that professor only |
| Profesores.RemoveAfterAdd | models/Profesor.js:159-193 | adding a block with a fresh id and then removing it restores the store exactly |
| Profesores.AddHorarioKeepsIds | models/Profesor.js:159-180 | adding a block leaves ids and every lookup unchanged |
| Profesores.GetCargaHoraria | models/Profesor.js:195-223 | fails iff the professor is missing; otherwise reports the total recorded hours, the cap (class cap, else weekly cap, else 20), the total cap (else 40) and the difference as availability |
| Profesores.CargaHorariaSpec | models/Profesor.js:201-214 | the per-day table sums to the total, gives each day exactly the hours of that day's blocks, has one key per day that has blocks, and no repeated keys |
| Profesores.CargaTrasCreate | models/Profesor.js:60-86 | a freshly created professor has zero load and their type's full class-hour cap available |
| Profesores.ConflictosSpec | models/Profesor.js:232-265 | every existing block overlapping the new one on the same day is reported and only those; the hour-limit finding appears iff current plus new hours exceed the cap |
| Profesores.CheckConflictos | models/Profesor.js:226-265 | fails iff the professor is missing; otherwise the findings for that professor's record |
| Profesores.SinConflictosAddHorario | models/Profesor.js:159-265 | a block that the conflict check accepts keeps the professor free of overlaps and within their cap once added |
| Materias.ConDatos | models/Materia.js:61-73 | each numeric field takes the given value when it is a non-zero number, otherwise its default (3 credits, semester 1, 2/1/0 hours); prerequisites default to none |
| Materias.ConDatosNoCero | models/Materia.js:38-41 | credits, semester, theory and practice hours can never end up zero |
| Materias.Create | models/Materia.js:32-51 | appends one course built from the form with the given id and timestamp and no update time |
| Materias.Update | models/Materia.js:53-77 | fails iff the id is missing; otherwise only that course changes, rebuilt from the form, keeping id and creation date and taking the update time |
| Materias.UpdateKeepsIds | models/Materia.js:53-77 | an update changes no lookup and no delete count |
| Materias.DeleteSpec | models/Materia.js:79-89 | deleting fails iff no course has the id; otherwise exactly the other courses remain |
| Materias.GetBySemestre | models/Materia.js:91-94 | exactly the courses of the given semester; an unparsable semester selects none |
| Materias.GetBySemestreAppend | models/Materia.js:91-94 | the selection grows by the new course exactly when it belongs to the semester, keeping order |
| Materias.GetPrerequisitos | models/Materia.js:96-104 | a missing course has none; otherwise exactly the stored courses whose id is listed as a prerequisite |
| Materias.GetTotalHoras | models/Materia.js:106-113 | a missing course has 0 hours; otherwise theory plus practice plus laboratory |
| Materias.HorasSemestralesSpec | models/Materia.js:115-126 | the semester hours are 16 times the weekly hours, 0 for a missing course |
| Materias.LoadFromFile | models/Materia.js:128-160 | a non-array fails with the wrapped message; otherwise the created courses are appended, their number is the number of entries whose code the store did not hold before the import, the i-th of them is the record `create` builds from the i-th such entry with the i-th fresh id, and new plus existing equals the number of entries |
| Materias.ImportarContenido | models/Materia.js:141-149 | the import loop creates exactly the entries whose code is not in the pre-import snapshot, in file order, numbering the ids in creation order |
| Materias.CreadasSpec | models/Materia.js:141-149 | the i-th created record is built from the i-th selected entry with the i-th id |
| Materias.ImportaExistentes | models/Materia.js:141-149 | entries whose codes are all already stored import nothing and are all counted as existing |
| Materias.ImportaDuplicados | models/Materia.js:141-149 | two entries with the same new code are both imported, because existence is checked against the store read before the import |
| Materias.ResumenSemestralSpec | models/Materia.js:162-198 | one entry per semester present; each entry lists that semester's courses and its totals are the sums of credits, weekly hours and 16 times weekly hours |
| Materias.ResumenPorSemestre | models/Materia.js:162-198 | an entry's course rows are the rows of the semester selection, in store order |
| Intervalos.SolapaSimetrica | models/Profesor.js:242 | the overlap test is symmetric, and blocks that only touch do not overlap |
| HorariosInforme.ContarHorasSpec | models/Horario.js:355-368 | the hours counted for a course are the total length of all blocks of that course in the store |
| HorariosInforme.ContarTrasAddHorario | models/Horario.js:355-368 | recording a block changes that count by the block's length for its course and not at all for the others |
| HorariosInforme.ParesVacios | models/Horario.js:268-290 | a professor yields no overlap finding iff no two of their blocks overlap |
| HorariosInforme.HallazgosCorrectos | models/Horario.js:257-291 | every finding is justified: a limit finding only when recorded hours exceed the weekly limit, an overlap finding only for two overlapping blocks of that professor |
| HorariosInforme.HallazgosCompletos | models/Horario.js:257-291 | every excess and every overlapping pair of blocks is reported |
| HorariosInforme.ValidarCorrecto | models/Horario.js:253-294 | every finding of the whole validation concerns a listed professor and is justified |
| HorariosInforme.ValidarCompleto | models/Horario.js:253-294 | the whole validation reports every excess and every overlapping pair of every professor |
| HorariosInforme.ValidarSinSolapes | models/Horario.js:253-294 | the validation has no overlap finding iff no professor has overlapping blocks |
| HorariosInforme.GenerarResumenHorario | models/Horario.js:296-336 | one row per professor and per course in order; a professor row carries the id, "nombre apellido", the speciality, the legacy weekly cap and the load `getCargaHoraria` reports for that id; a course's needed hours are its weekly hours and it is complete iff assigned hours reach them; the total is the sum of the professors' hours |
| HorariosInforme.ResumenProfesores | models/Horario.js:311-322 | with unique ids, a professor row's hours are the hours of that record's blocks and its available hours are its class-hours cap minus them |
| HorariosInforme.ResumenMaterias | models/Horario.js:325-336 | a course's assigned hours are the hours of the blocks recorded for it |
| HorariosInforme.ResumenPorDia | models/Horario.js:338-344 | the per-day distribution gives each day the hours of its blocks and has a key exactly for the days that have blocks |
| HorariosInforme.ResumenPorTipo | models/Horario.js:304-349 | the per-type distribution gives each type its hours and always has keys for the three standard types |
| HorariosInforme.ResumenTotales | models/Horario.js:311-350 | with unique ids, the total equals all recorded hours and both distributions sum to it |
| Horarios.LibresEnSpec | models/Horario.js:224-248 | a one-hour slot is offered iff its day is one of the listed days and not excluded, it starts between 7 and 18 at an hour not excluded, and no block of the professor covers that hour |
| Horarios.HorasLibresSpec | models/Horario.js:220-251 | the free-slot list contains exactly the free slots |
| Horarios.ObtenerHorasDisponibles | models/Horario.js:220-251 | fails iff the professor is missing; otherwise lists exactly the professor's free slots |
| Horarios.Elegibles | models/Horario.js:62-67 | exactly the professors whose speciality mentions general, computing, engineering or the course name |
| Horarios.ElegibleSinMayusculas | models/Horario.js:62-67 | eligibility ignores ASCII case, and every professor is eligible for a course with an empty name |
| Horarios.ConCargas | models/Horario.js:200-210 | fails iff some selected professor has no record; otherwise each is paired with their current load and availability |
| Horarios.OrdenarEstable | models/Horario.js:212-217 | professors with the same availability and speciality rank keep their input order |
| Horarios.OrdenadosDeLaSeleccion | models/Horario.js:200-218 | the ordering contains only selected professors |
| Horarios.AsignarHorasFalla | models/Horario.js:141-198 | assigning hours of one kind fails iff some eligible professor has no record |
| Horarios.AsignarHorasHoras | models/Horario.js:141-198 | the reported hours are the sum of the blocks' hours and never exceed what was needed; success iff some hours were placed; ids are kept and one id is used per block |
| Horarios.AsignarHorasForma | models/Horario.js:153-189 | every placed block is of the course and kind asked for, lasts one or two hours, starts on a working day and hour that were not excluded, and belongs to an eligible professor |
| Horarios.AsignarHorasSano | models/Horario.js:170-189 | if no professor had overlapping blocks or exceeded their cap before, none does after |
| Horarios.AsignarHorasCuenta | models/Horario.js:177-188 | the hours recorded for the course grow by exactly the reported hours, and no other course's hours change |
| Horarios.AsignarMateriaFalla | models/Horario.js:56-139 | a course fails only when it has eligible professors and some hours to place, and one of those professors has no record |
| Horarios.AsignarMateriaResultado | models/Horario.js:56-139 | with no eligible professor the course is left unassigned with that reason and the store untouched; otherwise it is unassigned only when nothing was placed; an assignment reports the placed hours, the needed hours and whether they match |
| Horarios.AsignarMateriaForma | models/Horario.js:76-122 | every block of an assigned course is of one of the three kinds and well formed for that kind |
| Horarios.AsignarMateriaEfecto | models/Horario.js:76-122 | the course's recorded hours grow by the hours it reports, other courses are untouched, and an overlap-free store within caps stays so |
| Horarios.Seleccionadas | models/Horario.js:15 | exactly the stored courses whose id was selected |
| Horarios.ProfesoresSeleccionados | models/Horario.js:16 | exactly the stored professors whose id was selected |
| Horarios.OrdenarMaterias | models/Horario.js:28-35 | the courses are a permutation of the selection with semesters ascending and, within a semester, weekly hours descending |
| Horarios.OrdenarMateriasEstable | models/Horario.js:29-35 | courses with the same semester and weekly hours keep their input order |
| Horarios.CalcularHorarioSugeridoCompleto | models/Horario.js:10-54 | the suggestion never fails for selected professors, since each comes from the store |
| Horarios.CalcularHorarioSugeridoResumen | models/Horario.js:37-51 | every selected course ends up either assigned or among the conflicts; the counters match the two lists and the total is the sum of assigned hours |
| Horarios.CalcularHorarioSugeridoSano | models/Horario.js:37-51 | a store without overlaps and within caps stays so |
| Horarios.CalcularHorarioSugeridoCuenta | models/Horario.js:37-51 | each course's recorded hours grow by exactly the hours the suggestion reports for it |
| Backtracking.OrdenarMateriasSpec | modules/horarioBacktracking.js:13 | the courses are a permutation of the input in non-increasing semester order |
| Backtracking.OrdenarMateriasStable | modules/horarioBacktracking.js:13 | courses of the same semester keep their input order |
| Backtracking.EsValido | modules/horarioBacktracking.js:27-58 | an assignment is accepted iff the professor teaches the course, has fewer than two classes that day, the slot does not cross lunch, overlaps none of the professor's classes, keeps them within their cap, is not taken, lies within their availability when declared, and is not on a weekend that must be avoided |
| Backtracking.DeshacerAsignar | modules/horarioBacktracking.js:70-82 | undoing an assignment restores the state before it |
| Backtracking.Candidatos | modules/horarioBacktracking.js:65-67 | the candidates are exactly the pairs of a professor teaching the course and an offered slot |
| Backtracking.InvAsignar | modules/horarioBacktracking.js:68-77 | a valid assignment preserves the search invariant: every list valid and occupancy in step with the lists |
| Backtracking.BacktrackSpec | modules/horarioBacktracking.js:61-87 | a failed search leaves the state as it found it; a successful one keeps the invariant and adds exactly the codes of the remaining courses |
| Backtracking.BacktrackCompleto | modules/horarioBacktracking.js:61-87 | the search succeeds exactly when the remaining courses can be placed one after another, each by some candidate that passes the validator |
| Backtracking.IntentarCompleto | modules/horarioBacktracking.js:65-85 | trying a list of candidates succeeds exactly when one of them passes the validator and leaves the later courses placeable |
| Backtracking.SincronizadoSinDobleReserva | modules/horarioBacktracking.js:76-82 | while occupancy is kept in step with the lists, no slot is in the lists of two different professors |
| Backtracking.AsignarHorariosBacktracking | modules/horarioBacktracking.js:11-95 | succeeds exactly when the sorted courses can be placed by valid choices; on success every professor's list is valid, no slot is given to two professors, and the assigned codes are exactly the courses' codes, one entry per course; on failure every list is empty |
| Backtracking.GenerarResumenSpec | modules/horarioBacktracking.js:98-112 | the summary prints every assignment in professor order and one "Sin asignaciones" line per professor with none |
| HorariosController.OrganizarHorariosPorDiaSpec | controllers/horariosController.js:224-256 | the grid has a cell for each working day and each hour 7 to 20, and a cell holds exactly the blocks covering that hour, in professor and block order |
| HorariosController.ContenidoSpec | controllers/horariosController.js:238-253 | a grid entry is a listed professor with one of their blocks that covers that day and hour |
| HorariosController.MarcarSpec | controllers/horariosController.js:244-251 | placing a block appends it to the cells of its day for each hour it covers, and only to cells that exist |
| HorariosController.CalcularGuardas | controllers/horariosController.js:47-94 | no course selected shows the course error, else no professor selected shows the professor error, both without touching the store; past the guards the suggestion is shown |
| HorariosController.LimpiarSpec | controllers/horariosController.js:158-172 | every professor keeps everything but their blocks, which become empty |
| HorariosController.LimpiarIdempotente | controllers/horariosController.js:158-172 | clearing twice is clearing once |
| HorariosController.LimpiarSinHoras | controllers/horariosController.js:158-172 | after clearing, ids are kept, no course has recorded hours and the validation finds no overlap |
| IndexController.IndexEstadisticas | controllers/indexController.js:20-34 | the counts are the store sizes and the number of findings, completed plus pending is the number of courses, the total hours are the summary's, and at most five findings are shown, as a prefix of the validation |
| IndexController.IndexCompletadas | controllers/indexController.js:26-27 | a course counts as completed iff its assigned hours reach its needed hours |
| IndexController.ProfesoresConCargaSpec | controllers/indexController.js:31-34 | the shown professors are in non-increasing load order, come from the summary, and nobody left out has more hours than anyone shown |
| IndexController.MateriasPorSemestreSpec | controllers/indexController.js:37-45 | a semester is a key iff some course has it and it is non-zero; its bucket holds that semester's courses in store order |
| IndexController.EstadisticasDetalleTotales | controllers/indexController.js:86-107 | professors with and without blocks add up to the total, and none lacks blocks iff every professor has blocks; completed plus pending is the number of courses |
| IndexController.PorSemestreSpec | controllers/indexController.js:109-115 | a semester is counted iff some course has it, and its count is the number of such courses; it agrees with the dashboard's buckets |
| IndexController.DecimalIdaYVuelta | controllers/indexController.js:169 | the decimal rendering of a number reads back to that number |
| IndexController.ResultadosProfesoresSpec | controllers/indexController.js:140-155 | a professor appears iff name, surname, speciality or email contains the query ignoring case, always as a professor result |
| IndexController.ResultadosMateriasSpec | controllers/indexController.js:157-171 | a course appears iff name, code or description contains the query ignoring case, always as a course result |
| IndexController.BuscarSpec | controllers/indexController.js:132-186 | a blank query gives no results; otherwise professors are searched for `todos` or `profesores` and courses for `todos` or `materias`, and professor results all come before course results |

## Left out

- File I/O (`getAll`, `saveAll`, reading the import file) and `async`: the stores are values passed in and returned.
- `Date.now()` ids and `new Date().toISOString()` timestamps: they are parameters.
- Views, routes, request parsing and the browser script: only the pure logic of the controllers is modelled.
- `parseInt` on form fields: a field is a number or absent (`Option<int>`). Stored hours are integers, so `parseInt` on them is the identity.
- `String.prototype.localeCompare` in the ordering of professors: a caller-supplied rank.
- `toLowerCase` outside ASCII: `Text.Lower` lowers only `A`–`Z`.
- `porcentajeUso` (models/Horario.js:320) and `promedioHoras` (controllers/indexController.js:92-93): floating-point division and rounding.
- Key order of JavaScript objects used as maps: the distribution tables are sequences of (key, value) pairs in first-insertion order, and the grouped maps are Dafny maps.
- `null` and non-array values in the dashboard (`Array.isArray`, `m && …`, `typeof … === 'number'`): the stores are always sequences of records with integer hours, so those filters keep everything.
- A failure halfway through the greedy scheduler: JavaScript keeps the blocks already written to the file, while the model's `Err` carries only the message. Every professor that reaches the scheduler comes from the store, so `Horarios.CalcularHorarioSugeridoCompleto` proves the path unreachable from `calcular`.
- The slots offered to a professor: a function from the professor's blocks to slots, fixed to `Horarios.LibresCon` by the caller. Only the search it feeds is modelled.
- Horarios.AsignarHorasForma: bounds each placed block to one or two hours instead of stating that it is exactly `min(2, hours still missing)`. That exact size is stated per step by `Horarios.LlenarPaso`, and the bound on the total by `Horarios.AsignarHorasHoras`.
- Duplicate ids: some lemmas require unique professor ids (`Profesores.IdsUnicos`), the invariant that `Create` preserves. `Backtracking` also requires non-empty ids, because a slot is taken when its occupant is a truthy id.
- `getEstadisticasApi`, `ayuda`, `configuracion`, `show`, `exportar`, `getHorarioApi`, `getConflictosApi` and the per-professor view: they only read stores and render, or call the modelled reports.
- The text of the messages in the validation findings and of the backtracking summary lines: the findings keep their data and the summary lines are data (`Linea`) rather than formatted strings.
- Backtracking.Profesor: `maxHorasClase` is a mandatory integer. In JavaScript a missing cap makes the hours comparison false, so such a professor is never refused for hours; the model does not express that case.
