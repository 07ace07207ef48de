/**
 * The greedy timetable suggestion: for each selected course, in semester
 * order, hand out its theory, practice and lab hours in blocks of at most
 * two hours to the eligible professors with the most free capacity, checking
 * each block against the professor's recorded blocks and cap before
 * recording it.
 */
module Horarios {
  import opened Wrappers
  import opened Seqs
  import opened Sorting
  import opened Text
  import P = Profesores
  import M = Materias
  import I = HorariosInforme

  /** The teaching days the builder walks, in order. */
  const DIAS: seq<string> := ["Lunes", "Martes", "Miércoles", "Jueves", "Viernes", "Sábado"]

  /** The first and last hour a block may start at. */
  const PRIMERA_HORA: int := 7
  const ULTIMA_HORA: int := 18

  /** The longest block the builder records, in hours. */
  const MAX_BLOQUE: int := 2

  const SIN_PROFESORES: string := "No hay profesores disponibles para esta materia"
  const SIN_HORARIOS: string := "No se pudieron asignar horarios para esta materia"

  /** The caller's exclusions; a missing list excludes nothing. */
  datatype Restricciones = Restricciones(diasExcluidos: seq<string>, horasExcluidas: seq<int>)

  // ---------------------------------------------------------------- free slots

  /** A recorded block covers hour `hora` of day `dia`. */
  predicate Cubre(h: P.Horario, dia: string, hora: int) {
    h.dia == dia && h.horaInicio <= hora < h.horaFin
  }

  predicate Ocupada(hs: seq<P.Horario>, dia: string, hora: int) {
    exists k | 0 <= k < |hs| :: Cubre(hs[k], dia, hora)
  }

  /** A one-hour slot the builder offers: an allowed day and start hour that no recorded block covers. */
  predicate Libre(hs: seq<P.Horario>, r: Restricciones, b: P.Bloque) {
    && b.dia in DIAS && b.dia !in r.diasExcluidos
    && PRIMERA_HORA <= b.horaInicio <= ULTIMA_HORA && b.horaInicio !in r.horasExcluidas
    && b.horaFin == b.horaInicio + 1
    && !Ocupada(hs, b.dia, b.horaInicio)
  }

  /** The free hours of one day from `hora` to the last start hour, in increasing order. */
  function LibresDelDia(hs: seq<P.Horario>, r: Restricciones, dia: string, hora: int): (s: seq<P.Bloque>)
    ensures forall k :: 0 <= k < |s| ==> s[k].dia == dia && hora <= s[k].horaInicio <= ULTIMA_HORA
    ensures forall j, k :: 0 <= j < k < |s| ==> s[j].horaInicio < s[k].horaInicio
    decreases ULTIMA_HORA + 1 - hora
  {
    if hora > ULTIMA_HORA then []
    else
      (if hora !in r.horasExcluidas && !Ocupada(hs, dia, hora) then [P.Bloque(dia, hora, hora + 1)] else [])
      + LibresDelDia(hs, r, dia, hora + 1)
  }

  function LibresEn(hs: seq<P.Horario>, r: Restricciones, dias: seq<string>): seq<P.Bloque> {
    if dias == [] then []
    else (if dias[0] in r.diasExcluidos then [] else LibresDelDia(hs, r, dias[0], PRIMERA_HORA)) + LibresEn(hs, r, dias[1..])
  }

  /** The one-hour slots `obtenerHorasDisponibles` lists for a professor's blocks: day by day, hour by hour. */
  function HorasLibres(hs: seq<P.Horario>, r: Restricciones): seq<P.Bloque> {
    LibresEn(hs, r, DIAS)
  }

  lemma {:induction false} LibresDelDiaSpec(hs: seq<P.Horario>, r: Restricciones, dia: string, hora: int, b: P.Bloque)
    ensures b in LibresDelDia(hs, r, dia, hora) <==>
      && b.dia == dia && hora <= b.horaInicio <= ULTIMA_HORA && b.horaInicio !in r.horasExcluidas
      && b.horaFin == b.horaInicio + 1 && !Ocupada(hs, dia, b.horaInicio)
    decreases ULTIMA_HORA + 1 - hora
  {
    if hora <= ULTIMA_HORA {
      LibresDelDiaSpec(hs, r, dia, hora + 1, b);
    }
  }

  lemma {:induction false} LibresEnSpec(hs: seq<P.Horario>, r: Restricciones, dias: seq<string>, b: P.Bloque)
    ensures b in LibresEn(hs, r, dias) <==>
      && b.dia in dias && b.dia !in r.diasExcluidos
      && PRIMERA_HORA <= b.horaInicio <= ULTIMA_HORA && b.horaInicio !in r.horasExcluidas
      && b.horaFin == b.horaInicio + 1 && !Ocupada(hs, b.dia, b.horaInicio)
  {
    if dias != [] {
      LibresEnSpec(hs, r, dias[1..], b);
      LibresDelDiaSpec(hs, r, dias[0], PRIMERA_HORA, b);
      assert b.dia in dias <==> b.dia == dias[0] || b.dia in dias[1..];
    }
  }

  /** A slot is listed exactly when it is free. */
  lemma HorasLibresSpec(hs: seq<P.Horario>, r: Restricciones, b: P.Bloque)
    ensures b in HorasLibres(hs, r) <==> Libre(hs, r, b)
  {
    LibresEnSpec(hs, r, DIAS, b);
  }

  /** A source of free slots that only offers allowed days and hours. */
  ghost predicate SoloPermitidos(libresDe: seq<P.Horario> -> seq<P.Bloque>, rs: Restricciones) {
    forall hs, b :: b in libresDe(hs) ==> Permitido(b.dia, b.horaInicio, rs)
  }

  /** The source of free slots `asignarHoras` uses: `obtenerHorasDisponibles` on the record it is given. */
  function LibresCon(rs: Restricciones): seq<P.Horario> -> seq<P.Bloque> {
    hs => HorasLibres(hs, rs)
  }

  /** The builder's free slots respect the exclusions. */
  lemma HorasLibresPermitidas(rs: Restricciones)
    ensures SoloPermitidos(LibresCon(rs), rs)
  {
    forall hs, b | b in HorasLibres(hs, rs) ensures Permitido(b.dia, b.horaInicio, rs) {
      HorasLibresSpec(hs, rs, b);
    }
  }

  /** `obtenerHorasDisponibles`: the free slots of the first record holding the id. */
  function ObtenerHorasDisponibles(store: seq<P.Profesor>, profesorId: string, r: Restricciones): (s: Result<seq<P.Bloque>>)
    ensures P.Buscar(store, profesorId).None? <==> s.Err?
    ensures s.Err? ==> s.msg == "Profesor no encontrado"
    ensures s.Ok? ==> forall b :: b in s.value <==> Libre(store[P.Buscar(store, profesorId).value].horarios, r, b)
  {
    match P.GetCargaHoraria(store, profesorId)
    case Err(e) => Err(e)
    case Ok(carga) =>
      var hs := carga.profesor.horarios;
      assert forall b :: b in HorasLibres(hs, r) <==> Libre(hs, r, b) by {
        forall b ensures b in HorasLibres(hs, r) <==> Libre(hs, r, b) {
          HorasLibresSpec(hs, r, b);
        }
      }
      Ok(HorasLibres(hs, r))
  }

  // ---------------------------------------------------------------- eligibility

  /**
   * The specialty, lower-cased, mentions `general`, the course name
   * lower-cased, `computacion` or `ingenieria`.
   */
  predicate Elegible(especialidad: string, nombreMateria: string) {
    var e := Lower(especialidad);
    Contains(e, "general") || Contains(e, Lower(nombreMateria)) || Contains(e, "computacion") || Contains(e, "ingenieria")
  }

  lemma {:induction false} LowerIdempotente(s: string)
    ensures Lower(Lower(s)) == Lower(s)
  {
    assert forall i :: 0 <= i < |s| ==> LowerChar(LowerChar(s[i])) == LowerChar(s[i]);
  }

  /** The test ignores the case of both names, and a course with an empty name is open to everybody. */
  lemma ElegibleSinMayusculas(especialidad: string, nombreMateria: string)
    ensures Elegible(Lower(especialidad), Lower(nombreMateria)) <==> Elegible(especialidad, nombreMateria)
    ensures nombreMateria == [] ==> Elegible(especialidad, nombreMateria)
  {
    LowerIdempotente(especialidad);
    LowerIdempotente(nombreMateria);
    if nombreMateria == [] {
      assert OccursAt(Lower(especialidad), Lower(nombreMateria), 0);
    }
  }

  /** The professors of `ps` eligible for the course, in order. */
  function Elegibles(ps: seq<P.Profesor>, materia: M.Materia): (r: seq<P.Profesor>)
    ensures forall p :: p in r <==> p in ps && Elegible(p.especialidad, materia.nombre)
  {
    if ps == [] then []
    else (if Elegible(ps[0].especialidad, materia.nombre) then [ps[0]] else []) + Elegibles(ps[1..], materia)
  }

  // ---------------------------------------------------------------- ordering by free capacity

  /** A professor of the selection with the load `getCargaHoraria` reports and the rank of their specialty. */
  datatype ConCarga = ConCarga(profesor: P.Profesor, cargaActual: int, disponible: int, orden: int)

  /** More free hours first; ties by specialty, in collation order. */
  function ClaveDisponibilidad(c: ConCarga): Key { (-c.disponible, c.orden) }

  /** `c` is professor `p` with the load of the first record holding their id and the rank of their specialty. */
  predicate CargaDe(store: seq<P.Profesor>, p: P.Profesor, c: ConCarga, rango: string -> int) {
    && P.Buscar(store, p.id).Some?
    && var q := store[P.Buscar(store, p.id).value];
    && c.profesor == p
    && c.cargaActual == P.TotalHoras(q.horarios)
    && c.disponible == P.Cap(q) - P.TotalHoras(q.horarios)
    && c.orden == rango(p.especialidad)
  }

  /**
   * Each professor with the current load of the first record holding their
   * id; `rango` is the collation rank `localeCompare` orders specialties by.
   */
  function ConCargas(store: seq<P.Profesor>, ps: seq<P.Profesor>, rango: string -> int): (r: Result<seq<ConCarga>>)
    ensures r.Err? <==> exists k :: 0 <= k < |ps| && P.Buscar(store, ps[k].id).None?
    ensures r.Err? ==> r.msg == "Profesor no encontrado"
    ensures r.Ok? ==> |r.value| == |ps| && forall k :: 0 <= k < |ps| ==> CargaDe(store, ps[k], r.value[k], rango)
  {
    if ps == [] then Ok([])
    else match P.GetCargaHoraria(store, ps[0].id)
      case Err(e) => Err(e)
      case Ok(carga) =>
        match ConCargas(store, ps[1..], rango)
        case Err(e) =>
          assert exists k :: 0 <= k < |ps| && P.Buscar(store, ps[k].id).None? by {
            var k :| 0 <= k < |ps[1..]| && P.Buscar(store, ps[1..][k].id).None?;
            assert ps[k + 1] == ps[1..][k];
          }
          Err(e)
        case Ok(resto) =>
          assert forall k :: 0 < k < |ps| ==> ps[k] == ps[1..][k - 1];
          Ok([ConCarga(ps[0], carga.totalHoras, carga.disponible, rango(ps[0].especialidad))] + resto)
  }

  /** `ordenarProfesoresPorDisponibilidad`: the professors with their loads, most free capacity first, stably. */
  function OrdenarPorDisponibilidad(store: seq<P.Profesor>, ps: seq<P.Profesor>, rango: string -> int): (r: Result<seq<ConCarga>>)
    ensures r.Err? <==> ConCargas(store, ps, rango).Err?
    ensures r.Err? ==> r.msg == "Profesor no encontrado"
    ensures r.Ok? ==>
      && SortedBy(r.value, ClaveDisponibilidad)
      && multiset(r.value) == multiset(ConCargas(store, ps, rango).value)
  {
    match ConCargas(store, ps, rango)
    case Err(e) => Err(e)
    case Ok(cs) => Ok(SortBy(cs, ClaveDisponibilidad))
  }

  /** Professors with the same free capacity and specialty rank keep their order in the selection. */
  lemma OrdenarEstable(store: seq<P.Profesor>, ps: seq<P.Profesor>, rango: string -> int, k: Key)
    requires ConCargas(store, ps, rango).Ok?
    ensures Having(OrdenarPorDisponibilidad(store, ps, rango).value, ClaveDisponibilidad, k)
         == Having(ConCargas(store, ps, rango).value, ClaveDisponibilidad, k)
  {
    SortStable(ConCargas(store, ps, rango).value, ClaveDisponibilidad, k);
  }

  /** Every professor the ordering lists comes from the selection. */
  lemma OrdenadosDeLaSeleccion(store: seq<P.Profesor>, ps: seq<P.Profesor>, rango: string -> int)
    requires ConCargas(store, ps, rango).Ok?
    ensures var os := OrdenarPorDisponibilidad(store, ps, rango).value;
      forall j :: 0 <= j < |os| ==> os[j].profesor in ps
  {
    var cs := ConCargas(store, ps, rango).value;
    var os := OrdenarPorDisponibilidad(store, ps, rango).value;
    forall j | 0 <= j < |os| ensures os[j].profesor in ps {
      assert os[j] in multiset(cs);
      var k :| 0 <= k < |cs| && cs[k] == os[j];
    }
  }

  // ---------------------------------------------------------------- the greedy loops

  /** One recorded block of the suggestion. */
  datatype Asignacion = Asignacion(
    materiaId: string,
    materiaNombre: string,
    profesorId: string,
    profesorNombre: string,
    dia: string,
    horaInicio: int,
    horaFin: int,
    tipo: string,
    horas: int)

  function Horas(a: Asignacion): int { a.horas }

  function MateriaDe(a: Asignacion): string { a.materiaId }

  function Min(a: int, b: int): int { if a < b then a else b }

  /** The data `addHorario` receives for an assignment. */
  function DatosDe(a: Asignacion): P.DatosHorario {
    P.DatosHorario(a.materiaId, a.dia, a.horaInicio, a.horaFin, a.tipo)
  }

  /** The blocks `addHorario` records for the assignments, with ids `ids(n)`, `ids(n + 1)`, ... */
  function Registros(asignaciones: seq<Asignacion>, ids: nat -> string, n: nat, ahora: string): seq<P.Horario> {
    if asignaciones == [] then []
    else [P.NuevoHorario(DatosDe(asignaciones[0]), ids(n), ahora)] + Registros(asignaciones[1..], ids, n + 1, ahora)
  }

  /** Every block the loop records: for the course, type and professor, one or two hours long. */
  predicate Forma(a: Asignacion, materia: M.Materia, tipo: string, profesorId: string) {
    && a.materiaId == materia.id && a.materiaNombre == materia.nombre && a.tipo == tipo
    && a.profesorId == profesorId
    && 1 <= a.horas <= MAX_BLOQUE && a.horaFin == a.horaInicio + a.horas
  }

  /** A block on an allowed day, starting at an allowed hour. */
  predicate Permitido(dia: string, hora: int, r: Restricciones) {
    && dia in DIAS && dia !in r.diasExcluidos
    && PRIMERA_HORA <= hora <= ULTIMA_HORA && hora !in r.horasExcluidas
  }

  /** A record whose blocks do not overlap and fit under its cap. */
  predicate Sano(p: P.Profesor) {
    P.SinSolapes(p.horarios) && P.TotalHoras(p.horarios) <= P.Cap(p)
  }

  predicate TodosSanos(store: seq<P.Profesor>) {
    forall k :: 0 <= k < |store| ==> Sano(store[k])
  }

  lemma SanosReemplazo(store: seq<P.Profesor>, i: nat, q: P.Profesor)
    requires TodosSanos(store) && i < |store| && Sano(q)
    ensures TodosSanos(store[i := q])
  {
  }

  /** One professor's record after their run, the blocks the run recorded, and the hours counted so far. */
  datatype Relleno = Relleno(profesor: P.Profesor, asignaciones: seq<Asignacion>, horas: int)

  /**
   * The inner loop of `asignarHoras` over one professor's free slots: while
   * hours are missing, a block of `min(2, missing)` hours at the slot's
   * start is recorded when `checkConflictos` finds nothing against the
   * record as it stands. `checkConflictos` and `addHorario` both act on the
   * first record holding the professor's id, so the loop runs on that
   * record; the run only appends the recorded blocks.
   */
  function Llenar(p: P.Profesor, c: ConCarga, n: nat, horas: int, ids: nat -> string, ahora: string,
                  materia: M.Materia, tipo: string, nec: int, libres: seq<P.Bloque>): (r: Relleno)
    decreases |libres|, 1
  {
    if libres == [] || horas >= nec then Relleno(p, [], horas)
    else Intento(p, c, n, horas, ids, ahora, materia, tipo, nec, libres)
  }

  /** One turn of `Llenar`: the block at the first free slot, recorded or skipped, then the rest of the run. */
  function Intento(p: P.Profesor, c: ConCarga, n: nat, horas: int, ids: nat -> string, ahora: string,
                   materia: M.Materia, tipo: string, nec: int, libres: seq<P.Bloque>): Relleno
    requires libres != []
    decreases |libres|, 0
  {
      var bloque := Min(MAX_BLOQUE, nec - horas);
      var a := Asignacion(materia.id, materia.nombre, c.profesor.id, c.profesor.nombre + " " + c.profesor.apellido,
                          libres[0].dia, libres[0].horaInicio, libres[0].horaInicio + bloque, tipo, bloque);
      var datos := DatosDe(a);
      if P.Conflictos(p, P.BloqueDe(datos)) != [] then
        Llenar(p, c, n, horas, ids, ahora, materia, tipo, nec, libres[1..])
      else
        var h := P.NuevoHorario(datos, ids(n), ahora);
        var resto := Llenar(P.ConHorario(p, h), c, n + 1, horas + a.horas, ids, ahora, materia, tipo, nec, libres[1..]);
        Relleno(resto.profesor, [a] + resto.asignaciones, resto.horas)
  }

  /** A run only appends to the record the blocks `addHorario` makes of its assignments. */
  lemma {:induction false} LlenarRegistros(p: P.Profesor, c: ConCarga, n: nat, horas: int, ids: nat -> string, ahora: string,
                                           materia: M.Materia, tipo: string, nec: int, libres: seq<P.Bloque>)
    ensures var r := Llenar(p, c, n, horas, ids, ahora, materia, tipo, nec, libres);
      r.profesor == p.(horarios := p.horarios + Registros(r.asignaciones, ids, n, ahora))
    decreases |libres|
  {
    if libres != [] && horas < nec {
      var a, libre, h := LlenarPaso(p, c, n, horas, ids, ahora, materia, tipo, nec, libres);
      if !libre {
        LlenarRegistros(p, c, n, horas, ids, ahora, materia, tipo, nec, libres[1..]);
      } else {
        var p1 := P.ConHorario(p, h);
        LlenarRegistros(p1, c, n + 1, horas + a.horas, ids, ahora, materia, tipo, nec, libres[1..]);
        var resto := Llenar(p1, c, n + 1, horas + a.horas, ids, ahora, materia, tipo, nec, libres[1..]);
        var rs := Registros(resto.asignaciones, ids, n + 1, ahora);
        assert Registros([a] + resto.asignaciones, ids, n, ahora) == [h] + rs by {
          assert ([a] + resto.asignaciones)[1..] == resto.asignaciones;
        }
        assert (p.horarios + [h]) + rs == p.horarios + ([h] + rs);
      }
    }
  }

  /**
   * One turn of `Llenar` with something missing: the block `a` it tries at
   * the first free slot, whether the record is free for it, and the block
   * `h` it records if so.
   */
  lemma LlenarPaso(p: P.Profesor, c: ConCarga, n: nat, horas: int, ids: nat -> string, ahora: string,
                   materia: M.Materia, tipo: string, nec: int, libres: seq<P.Bloque>)
    returns (a: Asignacion, libre: bool, h: P.Horario)
    requires libres != [] && horas < nec
    ensures a == Asignacion(materia.id, materia.nombre, c.profesor.id, c.profesor.nombre + " " + c.profesor.apellido,
                            libres[0].dia, libres[0].horaInicio, libres[0].horaInicio + Min(MAX_BLOQUE, nec - horas), tipo,
                            Min(MAX_BLOQUE, nec - horas))
    ensures libre <==> P.Conflictos(p, P.BloqueDe(DatosDe(a))) == []
    ensures h == P.NuevoHorario(DatosDe(a), ids(n), ahora)
    ensures !libre ==> Llenar(p, c, n, horas, ids, ahora, materia, tipo, nec, libres)
                       == Llenar(p, c, n, horas, ids, ahora, materia, tipo, nec, libres[1..])
    ensures libre ==>
      var resto := Llenar(P.ConHorario(p, h), c, n + 1, horas + a.horas, ids, ahora, materia, tipo, nec, libres[1..]);
      Llenar(p, c, n, horas, ids, ahora, materia, tipo, nec, libres) == Relleno(resto.profesor, [a] + resto.asignaciones, resto.horas)
  {
    var bloque := Min(MAX_BLOQUE, nec - horas);
    a := Asignacion(materia.id, materia.nombre, c.profesor.id, c.profesor.nombre + " " + c.profesor.apellido,
                    libres[0].dia, libres[0].horaInicio, libres[0].horaInicio + bloque, tipo, bloque);
    libre := P.Conflictos(p, P.BloqueDe(DatosDe(a))) == [];
    h := P.NuevoHorario(DatosDe(a), ids(n), ahora);
  }

  /** One professor's run never adds more hours than are missing. */
  lemma {:induction false} LlenarHoras(p: P.Profesor, c: ConCarga, n: nat, horas: int, ids: nat -> string, ahora: string,
                                       materia: M.Materia, tipo: string, nec: int, libres: seq<P.Bloque>)
    ensures var r := Llenar(p, c, n, horas, ids, ahora, materia, tipo, nec, libres);
      && r.horas == horas + SumOf(r.asignaciones, Horas)
      && SumOf(r.asignaciones, Horas) >= 0
      && (horas <= nec ==> r.horas <= nec)
    decreases |libres|
  {
    var r := Llenar(p, c, n, horas, ids, ahora, materia, tipo, nec, libres);
    if libres != [] && horas < nec {
      var a, libre, h := LlenarPaso(p, c, n, horas, ids, ahora, materia, tipo, nec, libres);
      if !libre {
        LlenarHoras(p, c, n, horas, ids, ahora, materia, tipo, nec, libres[1..]);
      } else {
        var p1 := P.ConHorario(p, h);
        LlenarHoras(p1, c, n + 1, horas + a.horas, ids, ahora, materia, tipo, nec, libres[1..]);
        var resto := Llenar(p1, c, n + 1, horas + a.horas, ids, ahora, materia, tipo, nec, libres[1..]);
        assert r.asignaciones == [a] + resto.asignaciones;
        assert r.asignaciones[1..] == resto.asignaciones;
      }
    }
  }

  /** Each block of one professor's run is for the course and type, theirs, and one or two hours long. */
  lemma {:induction false} LlenarForma(p: P.Profesor, c: ConCarga, n: nat, horas: int, ids: nat -> string, ahora: string,
                                       materia: M.Materia, tipo: string, nec: int, libres: seq<P.Bloque>)
    ensures var r := Llenar(p, c, n, horas, ids, ahora, materia, tipo, nec, libres);
      forall k :: 0 <= k < |r.asignaciones| ==> Forma(r.asignaciones[k], materia, tipo, c.profesor.id)
    decreases |libres|
  {
    var r := Llenar(p, c, n, horas, ids, ahora, materia, tipo, nec, libres);
    if libres != [] && horas < nec {
      var a, libre, h := LlenarPaso(p, c, n, horas, ids, ahora, materia, tipo, nec, libres);
      if !libre {
        LlenarForma(p, c, n, horas, ids, ahora, materia, tipo, nec, libres[1..]);
      } else {
        var p1 := P.ConHorario(p, h);
        LlenarForma(p1, c, n + 1, horas + a.horas, ids, ahora, materia, tipo, nec, libres[1..]);
        var resto := Llenar(p1, c, n + 1, horas + a.horas, ids, ahora, materia, tipo, nec, libres[1..]);
        assert r.asignaciones == [a] + resto.asignaciones;
        forall k | 0 < k < |r.asignaciones| ensures r.asignaciones[k] == resto.asignaciones[k - 1] {
        }
      }
    }
  }

  /** When every offered slot is allowed, so is every block of the run. */
  lemma {:induction false} LlenarPermitido(p: P.Profesor, c: ConCarga, n: nat, horas: int, ids: nat -> string, ahora: string,
                                           materia: M.Materia, tipo: string, nec: int, libres: seq<P.Bloque>,
                                           rs: Restricciones)
    requires forall j :: 0 <= j < |libres| ==> Permitido(libres[j].dia, libres[j].horaInicio, rs)
    ensures var r := Llenar(p, c, n, horas, ids, ahora, materia, tipo, nec, libres);
      forall k :: 0 <= k < |r.asignaciones| ==> Permitido(r.asignaciones[k].dia, r.asignaciones[k].horaInicio, rs)
    decreases |libres|
  {
    var r := Llenar(p, c, n, horas, ids, ahora, materia, tipo, nec, libres);
    if libres != [] && horas < nec {
      var a, libre, h := LlenarPaso(p, c, n, horas, ids, ahora, materia, tipo, nec, libres);
      if !libre {
        LlenarPermitido(p, c, n, horas, ids, ahora, materia, tipo, nec, libres[1..], rs);
      } else {
        var p1 := P.ConHorario(p, h);
        LlenarPermitido(p1, c, n + 1, horas + a.horas, ids, ahora, materia, tipo, nec, libres[1..], rs);
        var resto := Llenar(p1, c, n + 1, horas + a.horas, ids, ahora, materia, tipo, nec, libres[1..]);
        assert r.asignaciones == [a] + resto.asignaciones;
        forall k | 0 < k < |r.asignaciones| ensures r.asignaciones[k] == resto.asignaciones[k - 1] {
        }
      }
    }
  }

  /** A run keeps a conflict-free record within its cap conflict-free and within its cap. */
  lemma {:induction false} LlenarSano(p: P.Profesor, c: ConCarga, n: nat, horas: int, ids: nat -> string, ahora: string,
                                      materia: M.Materia, tipo: string, nec: int, libres: seq<P.Bloque>)
    requires Sano(p)
    ensures Sano(Llenar(p, c, n, horas, ids, ahora, materia, tipo, nec, libres).profesor)
    decreases |libres|
  {
    var r := Llenar(p, c, n, horas, ids, ahora, materia, tipo, nec, libres);
    if libres != [] && horas < nec {
      var a, libre, h := LlenarPaso(p, c, n, horas, ids, ahora, materia, tipo, nec, libres);
      if !libre {
        LlenarSano(p, c, n, horas, ids, ahora, materia, tipo, nec, libres[1..]);
      } else {
        var p1 := P.ConHorario(p, h);
        P.SinConflictosConHorario(p, DatosDe(a), ids(n), ahora);
        LlenarSano(p1, c, n + 1, horas + a.horas, ids, ahora, materia, tipo, nec, libres[1..]);
        var resto := Llenar(p1, c, n + 1, horas + a.horas, ids, ahora, materia, tipo, nec, libres[1..]);
        assert r.asignaciones == [a] + resto.asignaciones;
      }
    }
  }

  /** The blocks recorded for some assignments count, per course, the assignments' hours. */
  lemma {:induction false} RegistrosCuenta(bs: seq<Asignacion>, ids: nat -> string, n: nat, ahora: string, mid: string)
    requires forall k :: 0 <= k < |bs| ==> bs[k].horaFin == bs[k].horaInicio + bs[k].horas
    ensures P.TotalHoras(Having(Registros(bs, ids, n, ahora), I.MateriaId, mid)) == SumOf(Having(bs, MateriaDe, mid), Horas)
    decreases |bs|
  {
    if bs != [] {
      var h := P.NuevoHorario(DatosDe(bs[0]), ids(n), ahora);
      var resto := Registros(bs[1..], ids, n + 1, ahora);
      RegistrosCuenta(bs[1..], ids, n + 1, ahora, mid);
      HavingConcat([h], resto, I.MateriaId, mid);
      SumOfConcat(Having([h], I.MateriaId, mid), Having(resto, I.MateriaId, mid), P.Duracion);
      assert bs == [bs[0]] + bs[1..];
      CuentaCons(bs[0], bs[1..], mid);
    }
  }

  /** A run adds to the record's hours for a course exactly the hours of the run's blocks for that course. */
  lemma LlenarCuenta(p: P.Profesor, c: ConCarga, n: nat, horas: int, ids: nat -> string, ahora: string,
                     materia: M.Materia, tipo: string, nec: int, libres: seq<P.Bloque>, mid: string)
    ensures var r := Llenar(p, c, n, horas, ids, ahora, materia, tipo, nec, libres);
      P.TotalHoras(Having(r.profesor.horarios, I.MateriaId, mid))
      == P.TotalHoras(Having(p.horarios, I.MateriaId, mid)) + SumOf(Having(r.asignaciones, MateriaDe, mid), Horas)
  {
    var r := Llenar(p, c, n, horas, ids, ahora, materia, tipo, nec, libres);
    var hs := Registros(r.asignaciones, ids, n, ahora);
    LlenarRegistros(p, c, n, horas, ids, ahora, materia, tipo, nec, libres);
    LlenarForma(p, c, n, horas, ids, ahora, materia, tipo, nec, libres);
    RegistrosCuenta(r.asignaciones, ids, n, ahora, mid);
    HavingConcat(p.horarios, hs, I.MateriaId, mid);
    SumOfConcat(Having(p.horarios, I.MateriaId, mid), Having(hs, I.MateriaId, mid), P.Duracion);
  }

  /** Appending a block adds its hours to its course's count. */
  lemma CuentaConHorario(p: P.Profesor, h: P.Horario, mid: string)
    ensures P.TotalHoras(Having(P.ConHorario(p, h).horarios, I.MateriaId, mid))
         == P.TotalHoras(Having(p.horarios, I.MateriaId, mid)) + (if h.materiaId == mid then h.horaFin - h.horaInicio else 0)
  {
    HavingConcat(p.horarios, [h], I.MateriaId, mid);
    SumOfConcat(Having(p.horarios, I.MateriaId, mid), Having([h], I.MateriaId, mid), P.Duracion);
  }

  lemma CuentaCons(a: Asignacion, resto: seq<Asignacion>, mid: string)
    ensures SumOf(Having([a] + resto, MateriaDe, mid), Horas)
         == (if a.materiaId == mid then a.horas else 0) + SumOf(Having(resto, MateriaDe, mid), Horas)
  {
    HavingConcat([a], resto, MateriaDe, mid);
    SumOfConcat(Having([a], MateriaDe, mid), Having(resto, MateriaDe, mid), Horas);
  }

  // ---------------------------------------------------------------- the loop over professors

  /** The store after a run, the next free id counter, the blocks the run recorded, and the hours counted so far. */
  datatype Tramo = Tramo(store: seq<P.Profesor>, n: nat, asignaciones: seq<Asignacion>, horas: int)

  function IdsDe(os: seq<ConCarga>): (r: seq<string>)
    ensures |r| == |os|
    ensures forall j :: 0 <= j < |os| ==> r[j] == os[j].profesor.id
    decreases |os|
  {
    if os == [] then [] else [os[0].profesor.id] + IdsDe(os[1..])
  }

  /** Every listed professor has a record in the store. */
  predicate Encontrados(store: seq<P.Profesor>, ids: seq<string>) {
    forall j :: 0 <= j < |ids| ==> P.Buscar(store, ids[j]).Some?
  }

  /** Replacing a record by one with the same id keeps every lookup. */
  lemma MismosIds(store: seq<P.Profesor>, i: nat, q: P.Profesor)
    requires i < |store| && q.id == store[i].id
    ensures P.Ids(store[i := q]) == P.Ids(store)
    ensures forall id :: P.Buscar(store[i := q], id) == P.Buscar(store, id)
  {
    forall id ensures P.Buscar(store[i := q], id) == P.Buscar(store, id) {
      IndexOfSameKeys(store[i := q], store, P.Id, id);
    }
  }

  /** After one professor's run, the rest of the listed professors still have records. */
  lemma EncontradosCola(store: seq<P.Profesor>, i: nat, q: P.Profesor, os: seq<ConCarga>)
    requires i < |store| && q.id == store[i].id && os != []
    requires Encontrados(store, IdsDe(os))
    ensures Encontrados(store[i := q], IdsDe(os[1..]))
  {
    MismosIds(store, i, q);
    forall j | 0 <= j < |os| - 1 ensures P.Buscar(store[i := q], IdsDe(os[1..])[j]).Some? {
      assert IdsDe(os[1..])[j] == IdsDe(os)[j + 1];
    }
  }

  /**
   * The outer loop of `asignarHoras`: while hours are missing, each
   * professor in turn gets the free slots of their current record and the
   * inner loop over them.
   */
  function PorProfesores(store: seq<P.Profesor>, n: nat, horas: int, ids: nat -> string, ahora: string,
                         materia: M.Materia, tipo: string, nec: int, os: seq<ConCarga>, libresDe: seq<P.Horario> -> seq<P.Bloque>)
    : (t: Result<Tramo>)
    decreases |os|
  {
    if os == [] || horas >= nec then Ok(Tramo(store, n, [], horas))
    else
      match P.Buscar(store, os[0].profesor.id)
      case None => Err("Profesor no encontrado")
      case Some(i) =>
        var l := Llenar(store[i], os[0], n, horas, ids, ahora, materia, tipo, nec, libresDe(store[i].horarios));
        var store1 := store[i := l.profesor];
        match PorProfesores(store1, n + |l.asignaciones|, l.horas, ids, ahora, materia, tipo, nec, os[1..], libresDe)
        case Err(e) => Err(e)
        case Ok(t) => Ok(Tramo(t.store, t.n, l.asignaciones + t.asignaciones, t.horas))
  }

  /** A loop with nobody left or nothing missing records nothing. */
  lemma PorProfesoresFin(store: seq<P.Profesor>, n: nat, horas: int, ids: nat -> string, ahora: string,
                         materia: M.Materia, tipo: string, nec: int, os: seq<ConCarga>, libresDe: seq<P.Horario> -> seq<P.Bloque>)
    requires os == [] || horas >= nec
    ensures PorProfesores(store, n, horas, ids, ahora, materia, tipo, nec, os, libresDe) == Ok(Tramo(store, n, [], horas))
  {
  }

  /**
   * One step of the loop over professors: a missing record stops it with an
   * error; otherwise the first professor's run, then the rest of the loop on
   * the updated store.
   */
  lemma PorProfesoresPaso(store: seq<P.Profesor>, n: nat, horas: int, ids: nat -> string, ahora: string,
                          materia: M.Materia, tipo: string, nec: int, os: seq<ConCarga>, libresDe: seq<P.Horario> -> seq<P.Bloque>)
    requires os != [] && horas < nec
    ensures P.Buscar(store, os[0].profesor.id).None? ==>
      PorProfesores(store, n, horas, ids, ahora, materia, tipo, nec, os, libresDe) == Err("Profesor no encontrado")
    ensures P.Buscar(store, os[0].profesor.id).Some? ==>
      var i := P.Buscar(store, os[0].profesor.id).value;
      var l := Llenar(store[i], os[0], n, horas, ids, ahora, materia, tipo, nec, libresDe(store[i].horarios));
      var u := PorProfesores(store[i := l.profesor], n + |l.asignaciones|, l.horas, ids, ahora, materia, tipo, nec, os[1..], libresDe);
      && (u.Err? ==> PorProfesores(store, n, horas, ids, ahora, materia, tipo, nec, os, libresDe) == u)
      && (u.Ok? ==>
            PorProfesores(store, n, horas, ids, ahora, materia, tipo, nec, os, libresDe)
            == Ok(Tramo(u.value.store, u.value.n, l.asignaciones + u.value.asignaciones, u.value.horas)))
  {
  }

  /** A successful step of the loop over professors, with the record found, its run and the rest of the loop named. */
  lemma PorProfesoresPasoOk(store: seq<P.Profesor>, n: nat, horas: int, ids: nat -> string, ahora: string,
                            materia: M.Materia, tipo: string, nec: int, os: seq<ConCarga>, libresDe: seq<P.Horario> -> seq<P.Bloque>)
    returns (i: nat, l: Relleno, u: Tramo)
    requires os != [] && horas < nec
    requires PorProfesores(store, n, horas, ids, ahora, materia, tipo, nec, os, libresDe).Ok?
    ensures P.Buscar(store, os[0].profesor.id) == Some(i) && i < |store|
    ensures l == Llenar(store[i], os[0], n, horas, ids, ahora, materia, tipo, nec, libresDe(store[i].horarios))
    ensures PorProfesores(store[i := l.profesor], n + |l.asignaciones|, l.horas, ids, ahora, materia, tipo, nec, os[1..], libresDe) == Ok(u)
    ensures PorProfesores(store, n, horas, ids, ahora, materia, tipo, nec, os, libresDe)
         == Ok(Tramo(u.store, u.n, l.asignaciones + u.asignaciones, u.horas))
  {
    PorProfesoresPaso(store, n, horas, ids, ahora, materia, tipo, nec, os, libresDe);
    i := P.Buscar(store, os[0].profesor.id).value;
    l := Llenar(store[i], os[0], n, horas, ids, ahora, materia, tipo, nec, libresDe(store[i].horarios));
    u := PorProfesores(store[i := l.profesor], n + |l.asignaciones|, l.horas, ids, ahora, materia, tipo, nec, os[1..], libresDe).value;
  }

  /** The loop fails only with the model's message for a missing record. */
  lemma {:induction false} PorProfesoresError(store: seq<P.Profesor>, n: nat, horas: int, ids: nat -> string, ahora: string,
                                              materia: M.Materia, tipo: string, nec: int, os: seq<ConCarga>, libresDe: seq<P.Horario> -> seq<P.Bloque>)
    ensures var t := PorProfesores(store, n, horas, ids, ahora, materia, tipo, nec, os, libresDe);
      t.Err? ==> t.msg == "Profesor no encontrado"
    decreases |os|
  {
    if os == [] || horas >= nec {
      PorProfesoresFin(store, n, horas, ids, ahora, materia, tipo, nec, os, libresDe);
    } else {
      PorProfesoresPaso(store, n, horas, ids, ahora, materia, tipo, nec, os, libresDe);
      if P.Buscar(store, os[0].profesor.id).Some? {
        var i := P.Buscar(store, os[0].profesor.id).value;
        var l := Llenar(store[i], os[0], n, horas, ids, ahora, materia, tipo, nec, libresDe(store[i].horarios));
        PorProfesoresError(store[i := l.profesor], n + |l.asignaciones|, l.horas, ids, ahora, materia, tipo, nec, os[1..], libresDe);
      }
    }
  }

  /** When every listed professor has a record, the loop succeeds. */
  lemma {:induction false} PorProfesoresEncontrados(store: seq<P.Profesor>, n: nat, horas: int, ids: nat -> string, ahora: string,
                                                    materia: M.Materia, tipo: string, nec: int, os: seq<ConCarga>, libresDe: seq<P.Horario> -> seq<P.Bloque>)
    ensures Encontrados(store, IdsDe(os)) ==> PorProfesores(store, n, horas, ids, ahora, materia, tipo, nec, os, libresDe).Ok?
    decreases |os|
  {
    if os == [] || horas >= nec {
      PorProfesoresFin(store, n, horas, ids, ahora, materia, tipo, nec, os, libresDe);
    } else if Encontrados(store, IdsDe(os)) {
      var i, l := PrimeroEncontrado(store, n, horas, ids, ahora, materia, tipo, nec, os, libresDe);
      PorProfesoresEncontrados(store[i := l.profesor], n + |l.asignaciones|, l.horas, ids, ahora, materia, tipo, nec, os[1..], libresDe);
      PorProfesoresOkPaso(store, n, horas, ids, ahora, materia, tipo, nec, os, libresDe, i, l);
    }
  }

  /** The loop over professors succeeds when the first record is found and the rest of the loop succeeds. */
  lemma PorProfesoresOkPaso(store: seq<P.Profesor>, n: nat, horas: int, ids: nat -> string, ahora: string,
                            materia: M.Materia, tipo: string, nec: int, os: seq<ConCarga>, libresDe: seq<P.Horario> -> seq<P.Bloque>,
                            i: nat, l: Relleno)
    requires os != [] && horas < nec
    requires P.Buscar(store, os[0].profesor.id) == Some(i) && i < |store|
    requires l == Llenar(store[i], os[0], n, horas, ids, ahora, materia, tipo, nec, libresDe(store[i].horarios))
    requires PorProfesores(store[i := l.profesor], n + |l.asignaciones|, l.horas, ids, ahora, materia, tipo, nec, os[1..], libresDe).Ok?
    ensures PorProfesores(store, n, horas, ids, ahora, materia, tipo, nec, os, libresDe).Ok?
  {
    PorProfesoresPaso(store, n, horas, ids, ahora, materia, tipo, nec, os, libresDe);
  }

  /** The first listed professor's record and run, when every listed professor has a record. */
  lemma PrimeroEncontrado(store: seq<P.Profesor>, n: nat, horas: int, ids: nat -> string, ahora: string,
                          materia: M.Materia, tipo: string, nec: int, os: seq<ConCarga>, libresDe: seq<P.Horario> -> seq<P.Bloque>)
    returns (i: nat, l: Relleno)
    requires os != [] && Encontrados(store, IdsDe(os))
    ensures P.Buscar(store, os[0].profesor.id) == Some(i) && i < |store|
    ensures l == Llenar(store[i], os[0], n, horas, ids, ahora, materia, tipo, nec, libresDe(store[i].horarios))
    ensures Encontrados(store[i := l.profesor], IdsDe(os[1..]))
  {
    assert IdsDe(os)[0] == os[0].profesor.id;
    i := P.Buscar(store, os[0].profesor.id).value;
    l := Llenar(store[i], os[0], n, horas, ids, ahora, materia, tipo, nec, libresDe(store[i].horarios));
    LlenarRegistros(store[i], os[0], n, horas, ids, ahora, materia, tipo, nec, libresDe(store[i].horarios));
    EncontradosCola(store, i, l.profesor, os);
  }

  /** A run keeps the store's size and ids, and advances the id counter once per recorded block. */
  lemma PorProfesoresIds(store: seq<P.Profesor>, n: nat, horas: int, ids: nat -> string, ahora: string,
      materia: M.Materia, tipo: string, nec: int, os: seq<ConCarga>, libresDe: seq<P.Horario> -> seq<P.Bloque>, t: Tramo)
    requires PorProfesores(store, n, horas, ids, ahora, materia, tipo, nec, os, libresDe) == Ok(t)
    ensures |t.store| == |store| && P.Ids(t.store) == P.Ids(store)
    ensures t.n == n + |t.asignaciones|
  {
    PorProfesoresMismosIds(store, n, horas, ids, ahora, materia, tipo, nec, os, libresDe, t);
    PorProfesoresContador(store, n, horas, ids, ahora, materia, tipo, nec, os, libresDe, t);
  }

  lemma {:induction false} PorProfesoresMismosIds(store: seq<P.Profesor>, n: nat, horas: int, ids: nat -> string, ahora: string,
      materia: M.Materia, tipo: string, nec: int, os: seq<ConCarga>, libresDe: seq<P.Horario> -> seq<P.Bloque>, t: Tramo)
    requires PorProfesores(store, n, horas, ids, ahora, materia, tipo, nec, os, libresDe) == Ok(t)
    ensures |t.store| == |store| && P.Ids(t.store) == P.Ids(store)
    decreases |os|
  {
    if os == [] || horas >= nec {
      PorProfesoresFin(store, n, horas, ids, ahora, materia, tipo, nec, os, libresDe);
    } else {
      var i, l, u := PorProfesoresPasoOk(store, n, horas, ids, ahora, materia, tipo, nec, os, libresDe);
      var store1 := store[i := l.profesor];
      assert |store1| == |store| && P.Ids(store1) == P.Ids(store) by {
        LlenarRegistros(store[i], os[0], n, horas, ids, ahora, materia, tipo, nec, libresDe(store[i].horarios));
        MismosIds(store, i, l.profesor);
      }
      PorProfesoresMismosIds(store1, n + |l.asignaciones|, l.horas, ids, ahora, materia, tipo, nec, os[1..], libresDe, u);
    }
  }

  lemma {:induction false} PorProfesoresContador(store: seq<P.Profesor>, n: nat, horas: int, ids: nat -> string, ahora: string,
      materia: M.Materia, tipo: string, nec: int, os: seq<ConCarga>, libresDe: seq<P.Horario> -> seq<P.Bloque>, t: Tramo)
    requires PorProfesores(store, n, horas, ids, ahora, materia, tipo, nec, os, libresDe) == Ok(t)
    ensures t.n == n + |t.asignaciones|
    decreases |os|
  {
    if os == [] || horas >= nec {
      PorProfesoresFin(store, n, horas, ids, ahora, materia, tipo, nec, os, libresDe);
    } else {
      var i, l, u := PorProfesoresPasoOk(store, n, horas, ids, ahora, materia, tipo, nec, os, libresDe);
      PorProfesoresContador(store[i := l.profesor], n + |l.asignaciones|, l.horas, ids, ahora, materia, tipo, nec, os[1..], libresDe, u);
    }
  }

  /** The loop over professors counts exactly the hours it records, and never more than are missing. */
  lemma {:induction false} PorProfesoresHoras(store: seq<P.Profesor>, n: nat, horas: int, ids: nat -> string, ahora: string,
                                              materia: M.Materia, tipo: string, nec: int, os: seq<ConCarga>, libresDe: seq<P.Horario> -> seq<P.Bloque>, t: Tramo)
    requires PorProfesores(store, n, horas, ids, ahora, materia, tipo, nec, os, libresDe) == Ok(t)
    ensures t.horas == horas + SumOf(t.asignaciones, Horas)
    ensures SumOf(t.asignaciones, Horas) >= 0
    ensures horas <= nec ==> t.horas <= nec
    decreases |os|
  {
    if os == [] || horas >= nec {
      PorProfesoresFin(store, n, horas, ids, ahora, materia, tipo, nec, os, libresDe);
    } else {
      var i, l, u := PorProfesoresPasoOk(store, n, horas, ids, ahora, materia, tipo, nec, os, libresDe);
      var libres := libresDe(store[i].horarios);
      var store1 := store[i := l.profesor];
      LlenarHoras(store[i], os[0], n, horas, ids, ahora, materia, tipo, nec, libres);
      PorProfesoresHoras(store1, n + |l.asignaciones|, l.horas, ids, ahora, materia, tipo, nec, os[1..], libresDe, u);
      SumOfConcat(l.asignaciones, u.asignaciones, Horas);
    }
  }

  /** A block for the course and type, one or two hours long, on an allowed day and hour, given to one of `profesores`. */
  predicate BienFormada(a: Asignacion, materia: M.Materia, tipo: string, rs: Restricciones, profesores: seq<string>) {
    && Forma(a, materia, tipo, a.profesorId)
    && Permitido(a.dia, a.horaInicio, rs)
    && a.profesorId in profesores
  }

  predicate BienFormadas(bs: seq<Asignacion>, materia: M.Materia, tipo: string, rs: Restricciones, profesores: seq<string>)
    decreases |bs|
  {
    bs == [] || (BienFormada(bs[0], materia, tipo, rs, profesores) && BienFormadas(bs[1..], materia, tipo, rs, profesores))
  }

  /** `BienFormadas` says the same as its elementwise reading. */
  lemma {:induction false} BienFormadasSpec(bs: seq<Asignacion>, materia: M.Materia, tipo: string, rs: Restricciones, profesores: seq<string>)
    ensures BienFormadas(bs, materia, tipo, rs, profesores)
        <==> forall k :: 0 <= k < |bs| ==> BienFormada(bs[k], materia, tipo, rs, profesores)
    decreases |bs|
  {
    if bs != [] {
      BienFormadasSpec(bs[1..], materia, tipo, rs, profesores);
      assert forall k :: 0 < k < |bs| ==> bs[k] == bs[1..][k - 1];
    }
  }

  lemma {:induction false} BienFormadasConcat(xs: seq<Asignacion>, ys: seq<Asignacion>, materia: M.Materia, tipo: string,
                                              rs: Restricciones, profesores: seq<string>)
    requires BienFormadas(xs, materia, tipo, rs, profesores) && BienFormadas(ys, materia, tipo, rs, profesores)
    ensures BienFormadas(xs + ys, materia, tipo, rs, profesores)
    decreases |xs|
  {
    if xs == [] {
      assert xs + ys == ys;
    } else {
      assert (xs + ys)[1..] == xs[1..] + ys;
      BienFormadasConcat(xs[1..], ys, materia, tipo, rs, profesores);
    }
  }

  /** Listing more professors keeps blocks well formed. */
  lemma {:induction false} BienFormadasMas(bs: seq<Asignacion>, materia: M.Materia, tipo: string, rs: Restricciones,
                                           ps: seq<string>, qs: seq<string>)
    requires BienFormadas(bs, materia, tipo, rs, ps)
    requires forall x :: x in ps ==> x in qs
    ensures BienFormadas(bs, materia, tipo, rs, qs)
    decreases |bs|
  {
    if bs != [] {
      BienFormadasMas(bs[1..], materia, tipo, rs, ps, qs);
    }
  }

  /** Blocks given to the later listed professors are given to listed professors. */
  lemma BienFormadasCola(bs: seq<Asignacion>, materia: M.Materia, tipo: string, rs: Restricciones, os: seq<ConCarga>)
    requires os != [] && BienFormadas(bs, materia, tipo, rs, IdsDe(os[1..]))
    ensures BienFormadas(bs, materia, tipo, rs, IdsDe(os))
  {
    assert IdsDe(os) == [os[0].profesor.id] + IdsDe(os[1..]);
    BienFormadasMas(bs, materia, tipo, rs, IdsDe(os[1..]), IdsDe(os));
  }

  /** The first professor's run in the loop makes well-formed blocks. */
  lemma FormaPrimero(store: seq<P.Profesor>, n: nat, horas: int, ids: nat -> string, ahora: string,
                     materia: M.Materia, tipo: string, nec: int, os: seq<ConCarga>,
                     libresDe: seq<P.Horario> -> seq<P.Bloque>, rs: Restricciones, i: nat)
    requires SoloPermitidos(libresDe, rs)
    requires os != [] && i < |store|
    ensures BienFormadas(Llenar(store[i], os[0], n, horas, ids, ahora, materia, tipo, nec, libresDe(store[i].horarios)).asignaciones,
                         materia, tipo, rs, IdsDe(os))
  {
    var libres := libresDe(store[i].horarios);
    var l := Llenar(store[i], os[0], n, horas, ids, ahora, materia, tipo, nec, libres);
    LlenarForma(store[i], os[0], n, horas, ids, ahora, materia, tipo, nec, libres);
    assert forall j :: 0 <= j < |libres| ==> libres[j] in libres;
    LlenarPermitido(store[i], os[0], n, horas, ids, ahora, materia, tipo, nec, libres, rs);
    assert IdsDe(os)[0] == os[0].profesor.id;
    BienFormadasSpec(l.asignaciones, materia, tipo, rs, IdsDe(os));
  }

  /** Every block of the loop is well formed and given to one of the listed professors. */
  lemma {:induction false} PorProfesoresForma(store: seq<P.Profesor>, n: nat, horas: int, ids: nat -> string, ahora: string,
                                              materia: M.Materia, tipo: string, nec: int, os: seq<ConCarga>,
                                              libresDe: seq<P.Horario> -> seq<P.Bloque>, rs: Restricciones, t: Tramo)
    requires SoloPermitidos(libresDe, rs)
    requires PorProfesores(store, n, horas, ids, ahora, materia, tipo, nec, os, libresDe) == Ok(t)
    ensures BienFormadas(t.asignaciones, materia, tipo, rs, IdsDe(os))
    decreases |os|
  {
    if os == [] || horas >= nec {
      PorProfesoresFin(store, n, horas, ids, ahora, materia, tipo, nec, os, libresDe);
    } else {
      var i, l, u := PorProfesoresPasoOk(store, n, horas, ids, ahora, materia, tipo, nec, os, libresDe);
      FormaPrimero(store, n, horas, ids, ahora, materia, tipo, nec, os, libresDe, rs, i);
      PorProfesoresForma(store[i := l.profesor], n + |l.asignaciones|, l.horas, ids, ahora, materia, tipo, nec, os[1..], libresDe, rs, u);
      BienFormadasCola(u.asignaciones, materia, tipo, rs, os);
      BienFormadasConcat(l.asignaciones, u.asignaciones, materia, tipo, rs, IdsDe(os));
    }
  }

  /** The loop keeps every record conflict-free and within its cap. */
  lemma {:induction false} PorProfesoresSano(store: seq<P.Profesor>, n: nat, horas: int, ids: nat -> string, ahora: string,
                                             materia: M.Materia, tipo: string, nec: int, os: seq<ConCarga>, libresDe: seq<P.Horario> -> seq<P.Bloque>, t: Tramo)
    requires TodosSanos(store)
    requires PorProfesores(store, n, horas, ids, ahora, materia, tipo, nec, os, libresDe) == Ok(t)
    ensures TodosSanos(t.store)
    decreases |os|
  {
    if os == [] || horas >= nec {
      PorProfesoresFin(store, n, horas, ids, ahora, materia, tipo, nec, os, libresDe);
    } else {
      var i, l, u := PorProfesoresPasoOk(store, n, horas, ids, ahora, materia, tipo, nec, os, libresDe);
      var libres := libresDe(store[i].horarios);
      assert Sano(l.profesor) by {
        LlenarSano(store[i], os[0], n, horas, ids, ahora, materia, tipo, nec, libres);
      }
      assert TodosSanos(store[i := l.profesor]) by {
        SanosReemplazo(store, i, l.profesor);
      }
      PorProfesoresSano(store[i := l.profesor], n + |l.asignaciones|, l.horas, ids, ahora, materia, tipo, nec, os[1..], libresDe, u);
    }
  }

  /** Joins one professor's run to the rest of the loop in the per-course count. */
  lemma CuentaUne(store: seq<P.Profesor>, i: nat, q: P.Profesor, la: seq<Asignacion>, u: Tramo, mid: string)
    requires i < |store|
    requires P.TotalHoras(Having(q.horarios, I.MateriaId, mid))
          == P.TotalHoras(Having(store[i].horarios, I.MateriaId, mid)) + SumOf(Having(la, MateriaDe, mid), Horas)
    requires I.ContarHorasPorMateria(u.store, mid)
          == I.ContarHorasPorMateria(store[i := q], mid) + SumOf(Having(u.asignaciones, MateriaDe, mid), Horas)
    ensures I.ContarHorasPorMateria(u.store, mid)
         == I.ContarHorasPorMateria(store, mid) + SumOf(Having(la + u.asignaciones, MateriaDe, mid), Horas)
  {
    I.ContarReemplazo(store, i, q, mid);
    HavingConcat(la, u.asignaciones, MateriaDe, mid);
    SumOfConcat(Having(la, MateriaDe, mid), Having(u.asignaciones, MateriaDe, mid), Horas);
  }

  /** The store's hours for a course grow by exactly the hours of the loop's blocks for that course. */
  lemma {:induction false} PorProfesoresCuenta(store: seq<P.Profesor>, n: nat, horas: int, ids: nat -> string, ahora: string,
                                               materia: M.Materia, tipo: string, nec: int, os: seq<ConCarga>, libresDe: seq<P.Horario> -> seq<P.Bloque>, mid: string, t: Tramo)
    requires PorProfesores(store, n, horas, ids, ahora, materia, tipo, nec, os, libresDe) == Ok(t)
    ensures I.ContarHorasPorMateria(t.store, mid)
      == I.ContarHorasPorMateria(store, mid) + SumOf(Having(t.asignaciones, MateriaDe, mid), Horas)
    decreases |os|
  {
    if os == [] || horas >= nec {
      PorProfesoresFin(store, n, horas, ids, ahora, materia, tipo, nec, os, libresDe);
    } else {
      var i, l, u := PorProfesoresPasoOk(store, n, horas, ids, ahora, materia, tipo, nec, os, libresDe);
      var libres := libresDe(store[i].horarios);
      var store1 := store[i := l.profesor];
      LlenarCuenta(store[i], os[0], n, horas, ids, ahora, materia, tipo, nec, libres, mid);
      PorProfesoresCuenta(store1, n + |l.asignaciones|, l.horas, ids, ahora, materia, tipo, nec, os[1..], libresDe, mid, u);
      CuentaUne(store, i, l.profesor, l.asignaciones, u, mid);
    }
  }

  // ---------------------------------------------------------------- asignarHoras

  /** What the builder takes from outside: fresh horario ids, the timestamp, the specialty collation rank and the restrictions. */
  datatype Entorno = Entorno(ids: nat -> string, ahora: string, rango: string -> int, rs: Restricciones)

  /** What `asignarHoras` returns, with the store after its writes and the next id counter. */
  datatype Reparto = Reparto(store: seq<P.Profesor>, n: nat, exito: bool, asignaciones: seq<Asignacion>, horasAsignadas: int)

  /** Some professor of `ps` has no record in the store. */
  predicate Faltan(store: seq<P.Profesor>, ps: seq<P.Profesor>) {
    exists k :: 0 <= k < |ps| && P.Buscar(store, ps[k].id).None?
  }

  /** Whether a professor is missing depends only on the store's ids. */
  lemma FaltanMismosIds(a: seq<P.Profesor>, b: seq<P.Profesor>, ps: seq<P.Profesor>)
    requires P.Ids(a) == P.Ids(b)
    ensures Faltan(a, ps) <==> Faltan(b, ps)
  {
    forall id ensures P.Buscar(a, id) == P.Buscar(b, id) {
      assert forall j :: 0 <= j < |a| ==> P.Ids(a)[j] == P.Ids(b)[j];
      IndexOfSameKeys(a, b, P.Id, id);
    }
  }

  /** Professors taken from the store itself are all found. */
  lemma FaltanNinguno(store: seq<P.Profesor>, ps: seq<P.Profesor>)
    requires forall p :: p in ps ==> p in store
    ensures !Faltan(store, ps)
  {
    forall k | 0 <= k < |ps| ensures P.Buscar(store, ps[k].id).Some? {
      assert ps[k] in store;
      var j :| 0 <= j < |store| && store[j] == ps[k];
      assert P.Id(store[j]) == ps[k].id;
    }
  }

  /** A sub-selection of found professors is found. */
  lemma FaltanSub(store: seq<P.Profesor>, qs: seq<P.Profesor>, ps: seq<P.Profesor>)
    requires forall q :: q in qs ==> q in ps
    requires !Faltan(store, ps)
    ensures !Faltan(store, qs)
  {
    forall k | 0 <= k < |qs| ensures P.Buscar(store, qs[k].id).Some? {
      assert qs[k] in ps;
      var j :| 0 <= j < |ps| && ps[j] == qs[k];
    }
  }

  /**
   * `asignarHoras`: the professors ordered by free capacity, then each in
   * turn over the free slots of their current record until `nec` hours are
   * placed; it succeeds when any hour was placed.
   */
  function AsignarHoras(store: seq<P.Profesor>, n: nat, e: Entorno, materia: M.Materia, ps: seq<P.Profesor>, nec: int, tipo: string): Result<Reparto>
  {
    match OrdenarPorDisponibilidad(store, ps, e.rango)
    case Err(msg) => Err(msg)
    case Ok(os) =>
      match PorProfesores(store, n, 0, e.ids, e.ahora, materia, tipo, nec, os, LibresCon(e.rs))
      case Err(msg) => Err(msg)
      case Ok(t) => Ok(Reparto(t.store, t.n, t.horas > 0, t.asignaciones, t.horas))
  }

  /** A successful `asignarHoras`, with its ordering and its loop named. */
  lemma AsignarHorasTramo(store: seq<P.Profesor>, n: nat, e: Entorno, materia: M.Materia, ps: seq<P.Profesor>, nec: int, tipo: string, r: Reparto)
    returns (os: seq<ConCarga>, t: Tramo)
    requires AsignarHoras(store, n, e, materia, ps, nec, tipo) == Ok(r)
    ensures OrdenarPorDisponibilidad(store, ps, e.rango) == Ok(os)
    ensures PorProfesores(store, n, 0, e.ids, e.ahora, materia, tipo, nec, os, LibresCon(e.rs)) == Ok(t)
    ensures r == Reparto(t.store, t.n, t.horas > 0, t.asignaciones, t.horas)
  {
    os := OrdenarPorDisponibilidad(store, ps, e.rango).value;
    t := PorProfesores(store, n, 0, e.ids, e.ahora, materia, tipo, nec, os, LibresCon(e.rs)).value;
  }

  /** `asignarHoras` fails exactly when a listed professor has no record, and then with the model's message. */
  lemma AsignarHorasFalla(store: seq<P.Profesor>, n: nat, e: Entorno, materia: M.Materia, ps: seq<P.Profesor>, nec: int, tipo: string)
    ensures AsignarHoras(store, n, e, materia, ps, nec, tipo).Err? <==> Faltan(store, ps)
    ensures AsignarHoras(store, n, e, materia, ps, nec, tipo).Err? ==> AsignarHoras(store, n, e, materia, ps, nec, tipo).msg == "Profesor no encontrado"
  {
    if !Faltan(store, ps) {
      OrdenadosDeLaSeleccion(store, ps, e.rango);
      var os := OrdenarPorDisponibilidad(store, ps, e.rango).value;
      forall j | 0 <= j < |IdsDe(os)| ensures P.Buscar(store, IdsDe(os)[j]).Some? {
        var k :| 0 <= k < |ps| && ps[k] == os[j].profesor;
      }
      PorProfesoresEncontrados(store, n, 0, e.ids, e.ahora, materia, tipo, nec, os, LibresCon(e.rs));
    }
  }

  /**
   * The hours `asignarHoras` reports are the hours of its blocks and never
   * more than needed; it succeeds iff it placed some; the store keeps its
   * records and the id counter advances once per block.
   */
  lemma AsignarHorasHoras(store: seq<P.Profesor>, n: nat, e: Entorno, materia: M.Materia, ps: seq<P.Profesor>, nec: int, tipo: string, r: Reparto)
    requires AsignarHoras(store, n, e, materia, ps, nec, tipo) == Ok(r)
    ensures r.horasAsignadas == SumOf(r.asignaciones, Horas)
    ensures nec <= 0 ==> r.asignaciones == [] && r.horasAsignadas == 0
    ensures nec > 0 ==> 0 <= r.horasAsignadas <= nec
    ensures r.exito <==> r.horasAsignadas > 0
    ensures |r.store| == |store| && P.Ids(r.store) == P.Ids(store)
    ensures r.n == n + |r.asignaciones|
  {
    var os, t := AsignarHorasTramo(store, n, e, materia, ps, nec, tipo, r);
    if os == [] || 0 >= nec {
      PorProfesoresFin(store, n, 0, e.ids, e.ahora, materia, tipo, nec, os, LibresCon(e.rs));
    }
    PorProfesoresHoras(store, n, 0, e.ids, e.ahora, materia, tipo, nec, os, LibresCon(e.rs), t);
    PorProfesoresIds(store, n, 0, e.ids, e.ahora, materia, tipo, nec, os, LibresCon(e.rs), t);
  }

  /** The ordered professors' ids are ids of the selection. */
  lemma IdsDeLaSeleccion(store: seq<P.Profesor>, ps: seq<P.Profesor>, rango: string -> int, os: seq<ConCarga>)
    requires OrdenarPorDisponibilidad(store, ps, rango) == Ok(os)
    ensures forall x :: x in IdsDe(os) ==> x in P.Ids(ps)
  {
    OrdenadosDeLaSeleccion(store, ps, rango);
    forall x | x in IdsDe(os) ensures x in P.Ids(ps) {
      var j :| 0 <= j < |os| && IdsDe(os)[j] == x;
      var k :| 0 <= k < |ps| && ps[k] == os[j].profesor;
      assert P.Ids(ps)[k] == x;
    }
  }

  /** Blocks of one or two hours add up to at least one hour each. */
  lemma {:induction false} BloquesAlMenos(bs: seq<Asignacion>, materia: M.Materia, tipo: string, rs: Restricciones, profesores: seq<string>)
    requires BienFormadas(bs, materia, tipo, rs, profesores)
    ensures SumOf(bs, Horas) >= |bs|
    decreases |bs|
  {
    if bs != [] {
      BloquesAlMenos(bs[1..], materia, tipo, rs, profesores);
    }
  }

  /**
   * Every block of `asignarHoras` is for the course and type, one or two
   * hours on an allowed slot, and given to one of the professors; the blocks
   * are worth at least an hour each, so a failed run placed none.
   */
  lemma AsignarHorasForma(store: seq<P.Profesor>, n: nat, e: Entorno, materia: M.Materia, ps: seq<P.Profesor>, nec: int, tipo: string, r: Reparto)
    requires AsignarHoras(store, n, e, materia, ps, nec, tipo) == Ok(r)
    ensures forall a :: a in r.asignaciones ==> BienFormada(a, materia, tipo, e.rs, P.Ids(ps))
    ensures |r.asignaciones| <= r.horasAsignadas
    ensures !r.exito ==> r.asignaciones == []
  {
    var os, t := AsignarHorasTramo(store, n, e, materia, ps, nec, tipo, r);
    assert BienFormadas(t.asignaciones, materia, tipo, e.rs, P.Ids(ps)) by {
      HorasLibresPermitidas(e.rs);
      PorProfesoresForma(store, n, 0, e.ids, e.ahora, materia, tipo, nec, os, LibresCon(e.rs), e.rs, t);
      IdsDeLaSeleccion(store, ps, e.rango, os);
      BienFormadasMas(t.asignaciones, materia, tipo, e.rs, IdsDe(os), P.Ids(ps));
    }
    BienFormadasSpec(t.asignaciones, materia, tipo, e.rs, P.Ids(ps));
    BloquesAlMenos(t.asignaciones, materia, tipo, e.rs, P.Ids(ps));
    AsignarHorasHoras(store, n, e, materia, ps, nec, tipo, r);
  }

  /** `asignarHoras` keeps every record conflict-free and within its cap. */
  lemma AsignarHorasSano(store: seq<P.Profesor>, n: nat, e: Entorno, materia: M.Materia, ps: seq<P.Profesor>, nec: int, tipo: string, r: Reparto)
    requires TodosSanos(store)
    requires AsignarHoras(store, n, e, materia, ps, nec, tipo) == Ok(r)
    ensures TodosSanos(r.store)
  {
    var os, t := AsignarHorasTramo(store, n, e, materia, ps, nec, tipo, r);
    PorProfesoresSano(store, n, 0, e.ids, e.ahora, materia, tipo, nec, os, LibresCon(e.rs), t);
  }

  /** `asignarHoras` adds exactly its placed hours to the course's count and leaves every other course's count alone. */
  lemma AsignarHorasCuenta(store: seq<P.Profesor>, n: nat, e: Entorno, materia: M.Materia, ps: seq<P.Profesor>, nec: int, tipo: string, r: Reparto)
    requires AsignarHoras(store, n, e, materia, ps, nec, tipo) == Ok(r)
    ensures I.ContarHorasPorMateria(r.store, materia.id) == I.ContarHorasPorMateria(store, materia.id) + r.horasAsignadas
    ensures forall mid :: mid != materia.id ==> I.ContarHorasPorMateria(r.store, mid) == I.ContarHorasPorMateria(store, mid)
  {
    var os, t := AsignarHorasTramo(store, n, e, materia, ps, nec, tipo, r);
    var libresDe := LibresCon(e.rs);
    assert forall k :: 0 <= k < |t.asignaciones| ==> MateriaDe(t.asignaciones[k]) == materia.id by {
      AsignarHorasForma(store, n, e, materia, ps, nec, tipo, r);
      assert forall k :: 0 <= k < |t.asignaciones| ==> t.asignaciones[k] in r.asignaciones;
    }
    assert t.horas == SumOf(t.asignaciones, Horas) by {
      AsignarHorasHoras(store, n, e, materia, ps, nec, tipo, r);
    }
    assert I.ContarHorasPorMateria(t.store, materia.id) == I.ContarHorasPorMateria(store, materia.id) + t.horas by {
      PorProfesoresCuenta(store, n, 0, e.ids, e.ahora, materia, tipo, nec, os, libresDe, materia.id, t);
      HavingAll(t.asignaciones, MateriaDe, materia.id);
    }
    forall mid | mid != materia.id
      ensures I.ContarHorasPorMateria(r.store, mid) == I.ContarHorasPorMateria(store, mid)
    {
      PorProfesoresCuenta(store, n, 0, e.ids, e.ahora, materia, tipo, nec, os, libresDe, mid, t);
      HavingNone(t.asignaciones, MateriaDe, mid);
    }
  }

  // ---------------------------------------------------------------- asignarMateria

  /** The three class types, in the order `asignarMateria` places them. */
  const TIPOS_CLASE: seq<string> := ["teoria", "practica", "laboratorio"]

  /** One type's share in `asignarMateria`: `asignarHoras` runs only when the course has hours of that type. */
  function Parte(store: seq<P.Profesor>, n: nat, e: Entorno, materia: M.Materia, ps: seq<P.Profesor>, horasTipo: int, tipo: string): Result<Reparto> {
    if horasTipo > 0 then AsignarHoras(store, n, e, materia, ps, horasTipo, tipo)
    else Ok(Reparto(store, n, false, [], 0))
  }

  /** The blocks a share contributes: only a successful share's. */
  function Aporte(r: Reparto): seq<Asignacion> { if r.exito then r.asignaciones else [] }

  /** The hours a share contributes: only a successful share's. */
  function HorasAporte(r: Reparto): int { if r.exito then r.horasAsignadas else 0 }

  /** A share fails exactly when it runs and a professor has no record. */
  lemma ParteFalla(store: seq<P.Profesor>, n: nat, e: Entorno, materia: M.Materia, ps: seq<P.Profesor>, horasTipo: int, tipo: string)
    ensures Parte(store, n, e, materia, ps, horasTipo, tipo).Err? <==> horasTipo > 0 && Faltan(store, ps)
    ensures Parte(store, n, e, materia, ps, horasTipo, tipo).Err? ==> Parte(store, n, e, materia, ps, horasTipo, tipo).msg == "Profesor no encontrado"
  {
    if horasTipo > 0 {
      AsignarHorasFalla(store, n, e, materia, ps, horasTipo, tipo);
    }
  }

  /**
   * A share contributes all of its blocks, at least an hour each and never
   * more hours than the type asks for; it keeps the store's records and
   * advances the id counter once per block.
   */
  lemma ParteHoras(store: seq<P.Profesor>, n: nat, e: Entorno, materia: M.Materia, ps: seq<P.Profesor>, horasTipo: int, tipo: string, r: Reparto)
    requires Parte(store, n, e, materia, ps, horasTipo, tipo) == Ok(r)
    ensures Aporte(r) == r.asignaciones
    ensures HorasAporte(r) == SumOf(r.asignaciones, Horas)
    ensures |r.asignaciones| <= HorasAporte(r)
    ensures horasTipo > 0 ==> HorasAporte(r) <= horasTipo
    ensures horasTipo <= 0 ==> HorasAporte(r) == 0
    ensures |r.store| == |store| && P.Ids(r.store) == P.Ids(store)
    ensures r.n == n + |r.asignaciones|
  {
    if horasTipo > 0 {
      AsignarHorasHoras(store, n, e, materia, ps, horasTipo, tipo, r);
      AsignarHorasForma(store, n, e, materia, ps, horasTipo, tipo, r);
    }
  }

  /** Every block of a share is of its type and well formed. */
  lemma ParteForma(store: seq<P.Profesor>, n: nat, e: Entorno, materia: M.Materia, ps: seq<P.Profesor>, horasTipo: int, tipo: string, r: Reparto)
    requires Parte(store, n, e, materia, ps, horasTipo, tipo) == Ok(r)
    ensures forall a :: a in r.asignaciones ==> BienFormada(a, materia, tipo, e.rs, P.Ids(ps))
  {
    if horasTipo > 0 {
      AsignarHorasForma(store, n, e, materia, ps, horasTipo, tipo, r);
    }
  }

  /** A share keeps the records sound and adds its hours to the course's count only. */
  lemma ParteEfecto(store: seq<P.Profesor>, n: nat, e: Entorno, materia: M.Materia, ps: seq<P.Profesor>, horasTipo: int, tipo: string, r: Reparto)
    requires Parte(store, n, e, materia, ps, horasTipo, tipo) == Ok(r)
    ensures TodosSanos(store) ==> TodosSanos(r.store)
    ensures I.ContarHorasPorMateria(r.store, materia.id) == I.ContarHorasPorMateria(store, materia.id) + HorasAporte(r)
    ensures forall mid :: mid != materia.id ==> I.ContarHorasPorMateria(r.store, mid) == I.ContarHorasPorMateria(store, mid)
  {
    if horasTipo > 0 {
      if TodosSanos(store) {
        AsignarHorasSano(store, n, e, materia, ps, horasTipo, tipo, r);
      }
      AsignarHorasHoras(store, n, e, materia, ps, horasTipo, tipo, r);
      AsignarHorasCuenta(store, n, e, materia, ps, horasTipo, tipo, r);
    }
  }

  /** What `asignarMateria` reports for one course. */
  datatype ResultadoMateria =
    | SinAsignar(razon: string)
    | Asignada(materia: M.Materia, asignaciones: seq<Asignacion>, horasAsignadas: int, horasNecesarias: int, completado: bool)

  /** A course's outcome, with the store after its writes and the next id counter. */
  datatype Avance = Avance(store: seq<P.Profesor>, n: nat, resultado: ResultadoMateria)

  /** The hours an outcome placed. */
  function HorasDe(res: ResultadoMateria): int { if res.Asignada? then res.horasAsignadas else 0 }

  /** The blocks an outcome placed. */
  function BloquesDe(res: ResultadoMateria): seq<Asignacion> { if res.Asignada? then res.asignaciones else [] }

  /** The hours the three shares ask for: the positive type hours. */
  function HorasPedidas(m: M.Materia): int {
    (if m.horasTeoria > 0 then m.horasTeoria else 0)
    + (if m.horasPractica > 0 then m.horasPractica else 0)
    + (if m.horasLaboratorio > 0 then m.horasLaboratorio else 0)
  }

  /** The outcome once the shares are in: a failure when no hour was placed. */
  function Cierre(materia: M.Materia, asignaciones: seq<Asignacion>, horas: int): ResultadoMateria {
    if horas == 0 then SinAsignar(SIN_HORARIOS)
    else Asignada(materia, asignaciones, horas, M.HorasSemana(materia), horas == M.HorasSemana(materia))
  }

  /**
   * `asignarMateria`: the eligible professors, then the theory, practice and
   * laboratory shares in turn on the store each leaves behind; successful
   * shares' blocks and hours are collected.
   */
  function AsignarMateria(store: seq<P.Profesor>, n: nat, e: Entorno, materia: M.Materia, ps: seq<P.Profesor>): Result<Avance> {
    var d := Elegibles(ps, materia);
    if d == [] then Ok(Avance(store, n, SinAsignar(SIN_PROFESORES)))
    else Teoria(store, n, e, materia, d)
  }

  /** The theory share, then the rest. */
  function Teoria(store: seq<P.Profesor>, n: nat, e: Entorno, materia: M.Materia, d: seq<P.Profesor>): Result<Avance> {
    match Parte(store, n, e, materia, d, materia.horasTeoria, "teoria")
    case Err(msg) => Err(msg)
    case Ok(r1) => Practica(r1, e, materia, d)
  }

  /** The practice share on the store the theory share left, then the rest. */
  function Practica(r1: Reparto, e: Entorno, materia: M.Materia, d: seq<P.Profesor>): Result<Avance> {
    match Parte(r1.store, r1.n, e, materia, d, materia.horasPractica, "practica")
    case Err(msg) => Err(msg)
    case Ok(r2) => Laboratorio(r1, r2, e, materia, d)
  }

  /** The laboratory share on the store the practice share left, and the outcome. */
  function Laboratorio(r1: Reparto, r2: Reparto, e: Entorno, materia: M.Materia, d: seq<P.Profesor>): Result<Avance> {
    match Parte(r2.store, r2.n, e, materia, d, materia.horasLaboratorio, "laboratorio")
    case Err(msg) => Err(msg)
    case Ok(r3) => Ok(Avance(r3.store, r3.n, Reunir(materia, r1, r2, r3)))
  }

  /** The outcome of the three shares: their blocks and hours collected. */
  function Reunir(materia: M.Materia, r1: Reparto, r2: Reparto, r3: Reparto): ResultadoMateria {
    Cierre(materia, Aporte(r1) + Aporte(r2) + Aporte(r3), HorasAporte(r1) + HorasAporte(r2) + HorasAporte(r3))
  }

  /** A course whose theory share succeeded, with the share named. */
  lemma TeoriaOk(store: seq<P.Profesor>, n: nat, e: Entorno, materia: M.Materia, d: seq<P.Profesor>, av: Avance) returns (r1: Reparto)
    requires Teoria(store, n, e, materia, d) == Ok(av)
    ensures Parte(store, n, e, materia, d, materia.horasTeoria, "teoria") == Ok(r1)
    ensures Practica(r1, e, materia, d) == Ok(av)
  {
    var p1 := Parte(store, n, e, materia, d, materia.horasTeoria, "teoria");
    if p1.Err? {
      assert false;
    }
    r1 := p1.value;
  }

  /** A course whose practice share succeeded, with the share named. */
  lemma PracticaOk(r1: Reparto, e: Entorno, materia: M.Materia, d: seq<P.Profesor>, av: Avance) returns (r2: Reparto)
    requires Practica(r1, e, materia, d) == Ok(av)
    ensures Parte(r1.store, r1.n, e, materia, d, materia.horasPractica, "practica") == Ok(r2)
    ensures Laboratorio(r1, r2, e, materia, d) == Ok(av)
  {
    var p2 := Parte(r1.store, r1.n, e, materia, d, materia.horasPractica, "practica");
    if p2.Err? {
      assert false;
    }
    r2 := p2.value;
  }

  /** A course whose laboratory share succeeded, with the share and the outcome named. */
  lemma LaboratorioOk(r1: Reparto, r2: Reparto, e: Entorno, materia: M.Materia, d: seq<P.Profesor>, av: Avance) returns (r3: Reparto)
    requires Laboratorio(r1, r2, e, materia, d) == Ok(av)
    ensures Parte(r2.store, r2.n, e, materia, d, materia.horasLaboratorio, "laboratorio") == Ok(r3)
    ensures av == Avance(r3.store, r3.n, Reunir(materia, r1, r2, r3))
  {
    var p3 := Parte(r2.store, r2.n, e, materia, d, materia.horasLaboratorio, "laboratorio");
    if p3.Err? {
      assert false;
    }
    r3 := p3.value;
  }

  /** A course with eligible professors, with its three shares named. */
  lemma AsignarMateriaPartes(store: seq<P.Profesor>, n: nat, e: Entorno, materia: M.Materia, ps: seq<P.Profesor>, av: Avance) returns (r1: Reparto, r2: Reparto, r3: Reparto)
    requires Elegibles(ps, materia) != []
    requires AsignarMateria(store, n, e, materia, ps) == Ok(av)
    ensures Parte(store, n, e, materia, Elegibles(ps, materia), materia.horasTeoria, "teoria") == Ok(r1)
    ensures Parte(r1.store, r1.n, e, materia, Elegibles(ps, materia), materia.horasPractica, "practica") == Ok(r2)
    ensures Parte(r2.store, r2.n, e, materia, Elegibles(ps, materia), materia.horasLaboratorio, "laboratorio") == Ok(r3)
    ensures av == Avance(r3.store, r3.n, Reunir(materia, r1, r2, r3))
  {
    var d := Elegibles(ps, materia);
    assert Teoria(store, n, e, materia, d) == Ok(av);
    r1 := TeoriaOk(store, n, e, materia, d, av);
    r2 := PracticaOk(r1, e, materia, d, av);
    r3 := LaboratorioOk(r1, r2, e, materia, d, av);
  }

  /**
   * `asignarMateria` fails exactly when some share runs and an eligible
   * professor has no record; nothing the shares write changes which ids
   * are stored.
   */
  lemma AsignarMateriaFalla(store: seq<P.Profesor>, n: nat, e: Entorno, materia: M.Materia, ps: seq<P.Profesor>)
    ensures AsignarMateria(store, n, e, materia, ps).Err? <==>
      && Elegibles(ps, materia) != []
      && (materia.horasTeoria > 0 || materia.horasPractica > 0 || materia.horasLaboratorio > 0)
      && Faltan(store, Elegibles(ps, materia))
    ensures AsignarMateria(store, n, e, materia, ps).Err? ==> AsignarMateria(store, n, e, materia, ps).msg == "Profesor no encontrado"
  {
    var d := Elegibles(ps, materia);
    if d != [] {
      ParteFalla(store, n, e, materia, d, materia.horasTeoria, "teoria");
      var p1 := Parte(store, n, e, materia, d, materia.horasTeoria, "teoria");
      if p1.Ok? {
        var r1 := p1.value;
        ParteHoras(store, n, e, materia, d, materia.horasTeoria, "teoria", r1);
        FaltanMismosIds(r1.store, store, d);
        ParteFalla(r1.store, r1.n, e, materia, d, materia.horasPractica, "practica");
        var p2 := Parte(r1.store, r1.n, e, materia, d, materia.horasPractica, "practica");
        if p2.Ok? {
          var r2 := p2.value;
          ParteHoras(r1.store, r1.n, e, materia, d, materia.horasPractica, "practica", r2);
          FaltanMismosIds(r2.store, store, d);
          ParteFalla(r2.store, r2.n, e, materia, d, materia.horasLaboratorio, "laboratorio");
        }
      }
    }
  }

  /**
   * The outcome of `asignarMateria`: with nobody eligible it fails with the
   * first reason and touches nothing; otherwise it fails with the second
   * reason when no hour was placed, and else reports the placed hours (the
   * sum of its blocks, at most the hours the shares ask for), the needed
   * hours, and `completado` exactly when they are equal.
   */
  lemma AsignarMateriaResultado(store: seq<P.Profesor>, n: nat, e: Entorno, materia: M.Materia, ps: seq<P.Profesor>, av: Avance)
    requires AsignarMateria(store, n, e, materia, ps) == Ok(av)
    ensures Elegibles(ps, materia) == [] ==> av == Avance(store, n, SinAsignar(SIN_PROFESORES))
    ensures Elegibles(ps, materia) != [] && av.resultado.SinAsignar? ==> av.resultado.razon == SIN_HORARIOS
    ensures av.resultado.Asignada? ==>
      && av.resultado.materia == materia
      && 0 < av.resultado.horasAsignadas == SumOf(av.resultado.asignaciones, Horas)
      && av.resultado.horasNecesarias == M.HorasSemana(materia)
      && (av.resultado.completado <==> av.resultado.horasAsignadas == M.HorasSemana(materia))
    ensures 0 <= HorasDe(av.resultado) <= HorasPedidas(materia)
  {
    var d := Elegibles(ps, materia);
    if d != [] {
      var r1, r2, r3 := AsignarMateriaPartes(store, n, e, materia, ps, av);
      ParteHoras(store, n, e, materia, d, materia.horasTeoria, "teoria", r1);
      ParteHoras(r1.store, r1.n, e, materia, d, materia.horasPractica, "practica", r2);
      ParteHoras(r2.store, r2.n, e, materia, d, materia.horasLaboratorio, "laboratorio", r3);
      CierreReunido(materia, r1, r2, r3);
    }
  }

  /** The outcome gathered from three shares whose hours are the sums of their blocks, each within its request. */
  lemma CierreReunido(materia: M.Materia, r1: Reparto, r2: Reparto, r3: Reparto)
    requires Aporte(r1) == r1.asignaciones && HorasAporte(r1) == SumOf(r1.asignaciones, Horas)
    requires Aporte(r2) == r2.asignaciones && HorasAporte(r2) == SumOf(r2.asignaciones, Horas)
    requires Aporte(r3) == r3.asignaciones && HorasAporte(r3) == SumOf(r3.asignaciones, Horas)
    requires 0 <= HorasAporte(r1) <= (if materia.horasTeoria > 0 then materia.horasTeoria else 0)
    requires 0 <= HorasAporte(r2) <= (if materia.horasPractica > 0 then materia.horasPractica else 0)
    requires 0 <= HorasAporte(r3) <= (if materia.horasLaboratorio > 0 then materia.horasLaboratorio else 0)
    ensures var res := Reunir(materia, r1, r2, r3);
      && (res.SinAsignar? ==> res.razon == SIN_HORARIOS)
      && (res.Asignada? ==>
        && res.materia == materia
        && 0 < res.horasAsignadas == SumOf(res.asignaciones, Horas)
        && res.horasNecesarias == M.HorasSemana(materia)
        && (res.completado <==> res.horasAsignadas == M.HorasSemana(materia)))
      && 0 <= HorasDe(res) <= HorasPedidas(materia)
  {
    SumOfConcat(r1.asignaciones, r2.asignaciones, Horas);
    SumOfConcat(r1.asignaciones + r2.asignaciones, r3.asignaciones, Horas);
  }

  /** `asignarMateria` keeps the store's records and advances the id counter once per reported block. */
  lemma AsignarMateriaIds(store: seq<P.Profesor>, n: nat, e: Entorno, materia: M.Materia, ps: seq<P.Profesor>, av: Avance)
    requires AsignarMateria(store, n, e, materia, ps) == Ok(av)
    ensures |av.store| == |store| && P.Ids(av.store) == P.Ids(store)
    ensures av.n == n + |BloquesDe(av.resultado)|
  {
    var d := Elegibles(ps, materia);
    if d != [] {
      var r1, r2, r3 := AsignarMateriaPartes(store, n, e, materia, ps, av);
      ParteHoras(store, n, e, materia, d, materia.horasTeoria, "teoria", r1);
      ParteHoras(r1.store, r1.n, e, materia, d, materia.horasPractica, "practica", r2);
      ParteHoras(r2.store, r2.n, e, materia, d, materia.horasLaboratorio, "laboratorio", r3);
    }
  }

  /** Every block `asignarMateria` reports is of one of the three types and well formed for it, with an eligible professor. */
  lemma AsignarMateriaForma(store: seq<P.Profesor>, n: nat, e: Entorno, materia: M.Materia, ps: seq<P.Profesor>, av: Avance)
    requires AsignarMateria(store, n, e, materia, ps) == Ok(av)
    ensures forall a :: a in BloquesDe(av.resultado) ==>
      a.tipo in TIPOS_CLASE && BienFormada(a, materia, a.tipo, e.rs, P.Ids(Elegibles(ps, materia)))
  {
    var d := Elegibles(ps, materia);
    if d != [] {
      var r1, r2, r3 := AsignarMateriaPartes(store, n, e, materia, ps, av);
      ParteForma(store, n, e, materia, d, materia.horasTeoria, "teoria", r1);
      ParteForma(r1.store, r1.n, e, materia, d, materia.horasPractica, "practica", r2);
      ParteForma(r2.store, r2.n, e, materia, d, materia.horasLaboratorio, "laboratorio", r3);
      FormaReunida(materia, r1, r2, r3, e.rs, P.Ids(d));
    }
  }

  /** The blocks gathered from three well-formed shares are well formed for their own types. */
  lemma FormaReunida(materia: M.Materia, r1: Reparto, r2: Reparto, r3: Reparto, rs: Restricciones, ids: seq<string>)
    requires forall a :: a in r1.asignaciones ==> BienFormada(a, materia, "teoria", rs, ids)
    requires forall a :: a in r2.asignaciones ==> BienFormada(a, materia, "practica", rs, ids)
    requires forall a :: a in r3.asignaciones ==> BienFormada(a, materia, "laboratorio", rs, ids)
    ensures forall a :: a in BloquesDe(Reunir(materia, r1, r2, r3)) ==>
      a.tipo in TIPOS_CLASE && BienFormada(a, materia, a.tipo, rs, ids)
  {
    var todas := Aporte(r1) + Aporte(r2) + Aporte(r3);
    assert BloquesDe(Reunir(materia, r1, r2, r3)) <= todas;
    forall a | a in todas ensures a.tipo in TIPOS_CLASE && BienFormada(a, materia, a.tipo, rs, ids) {
      if a in Aporte(r1) {
        assert a.tipo == "teoria";
      } else if a in Aporte(r2) {
        assert a.tipo == "practica";
      } else {
        assert a in Aporte(r3);
        assert a.tipo == "laboratorio";
      }
    }
  }

  /** `asignarMateria` keeps the records sound and adds the hours it reports to the course's count only. */
  lemma AsignarMateriaEfecto(store: seq<P.Profesor>, n: nat, e: Entorno, materia: M.Materia, ps: seq<P.Profesor>, av: Avance)
    requires AsignarMateria(store, n, e, materia, ps) == Ok(av)
    ensures TodosSanos(store) ==> TodosSanos(av.store)
    ensures I.ContarHorasPorMateria(av.store, materia.id) == I.ContarHorasPorMateria(store, materia.id) + HorasDe(av.resultado)
    ensures forall mid :: mid != materia.id ==> I.ContarHorasPorMateria(av.store, mid) == I.ContarHorasPorMateria(store, mid)
  {
    var d := Elegibles(ps, materia);
    if d != [] {
      var r1, r2, r3 := AsignarMateriaPartes(store, n, e, materia, ps, av);
      ParteEfecto(store, n, e, materia, d, materia.horasTeoria, "teoria", r1);
      ParteEfecto(r1.store, r1.n, e, materia, d, materia.horasPractica, "practica", r2);
      ParteEfecto(r2.store, r2.n, e, materia, d, materia.horasLaboratorio, "laboratorio", r3);
    }
  }

  // ---------------------------------------------------------------- calcularHorarioSugerido

  /** A course left without a schedule, with the reason. */
  datatype Pendiente = Pendiente(materia: M.Materia, razon: string)

  /** The suggestion: the scheduled courses' outcomes, the unscheduled courses, and the summary counts. */
  datatype HorarioSugerido = HorarioSugerido(materias: seq<ResultadoMateria>, conflictos: seq<Pendiente>,
                                             materiasAsignadas: int, materiasSinAsignar: int, totalHoras: int)

  /** A finished run: the store after its writes, the next id counter, and the suggestion. */
  datatype Sugerencia = Sugerencia(store: seq<P.Profesor>, n: nat, horario: HorarioSugerido)

  /** The course an outcome was scheduled for; a failed outcome names none. */
  function MateriaDeResultado(res: ResultadoMateria): string { if res.Asignada? then res.materia.id else "" }

  /** The courses whose id is selected, in catalogue order. */
  function Seleccionadas(materias: seq<M.Materia>, materiasIds: seq<string>): (r: seq<M.Materia>)
    ensures forall m :: m in r <==> m in materias && m.id in materiasIds
  {
    var elegida := (m: M.Materia) => m.id in materiasIds;
    HavingSpec(materias, elegida, true);
    Filter(materias, elegida)
  }

  /** The professors whose id is selected, in store order. */
  function ProfesoresSeleccionados(store: seq<P.Profesor>, profesoresIds: seq<string>): (r: seq<P.Profesor>)
    ensures forall p :: p in r <==> p in store && p.id in profesoresIds
  {
    var elegido := (p: P.Profesor) => p.id in profesoresIds;
    HavingSpec(store, elegido, true);
    Filter(store, elegido)
  }

  /** Ascending semester, then more weekly hours first. */
  function ClaveMateria(m: M.Materia): Key { (m.semestre, -M.HorasSemana(m)) }

  /** The order courses are attempted in: a permutation with semesters ascending and, within one, weekly hours descending. */
  function OrdenarMaterias(ms: seq<M.Materia>): (r: seq<M.Materia>)
    ensures |r| == |ms| && multiset(r) == multiset(ms)
    ensures forall i, j :: 0 <= i < j < |r| ==>
      r[i].semestre < r[j].semestre || (r[i].semestre == r[j].semestre && M.HorasSemana(r[i]) >= M.HorasSemana(r[j]))
  {
    SortBy(ms, ClaveMateria)
  }

  /** Courses with the same semester and weekly hours are attempted in catalogue order. */
  lemma OrdenarMateriasEstable(ms: seq<M.Materia>, k: Key)
    ensures Having(OrdenarMaterias(ms), ClaveMateria, k) == Having(ms, ClaveMateria, k)
  {
    SortStable(ms, ClaveMateria, k);
  }

  /** One course's outcome entered in the suggestion: a scheduled course or a conflict, with the counts. */
  function Anotar(m: M.Materia, res: ResultadoMateria, h: HorarioSugerido): HorarioSugerido {
    match res
    case Asignada(_, _, horas, _, _) =>
      h.(materias := [res] + h.materias, materiasAsignadas := h.materiasAsignadas + 1, totalHoras := h.totalHoras + horas)
    case SinAsignar(razon) =>
      h.(conflictos := [Pendiente(m, razon)] + h.conflictos, materiasSinAsignar := h.materiasSinAsignar + 1)
  }

  /** The loop of `calcularHorarioSugerido` over the ordered courses, threading the store through `asignarMateria`. */
  function Recorrer(store: seq<P.Profesor>, n: nat, e: Entorno, ms: seq<M.Materia>, ps: seq<P.Profesor>): Result<Sugerencia>
    decreases |ms|
  {
    if ms == [] then Ok(Sugerencia(store, n, HorarioSugerido([], [], 0, 0, 0)))
    else
      match AsignarMateria(store, n, e, ms[0], ps)
      case Err(msg) => Err(msg)
      case Ok(av) =>
        match Recorrer(av.store, av.n, e, ms[1..], ps)
        case Err(msg) => Err(msg)
        case Ok(s) => Ok(Sugerencia(s.store, s.n, Anotar(ms[0], av.resultado, s.horario)))
  }

  /** `calcularHorarioSugerido`: the selected courses in order, each scheduled with the selected professors. */
  function CalcularHorarioSugerido(store: seq<P.Profesor>, n: nat, e: Entorno, materias: seq<M.Materia>, materiasIds: seq<string>, profesoresIds: seq<string>): Result<Sugerencia> {
    Recorrer(store, n, e, OrdenarMaterias(Seleccionadas(materias, materiasIds)), ProfesoresSeleccionados(store, profesoresIds))
  }

  /** A successful step of the loop over courses, with the course's outcome and the rest of the loop named. */
  lemma RecorrerPasoOk(store: seq<P.Profesor>, n: nat, e: Entorno, ms: seq<M.Materia>, ps: seq<P.Profesor>, s: Sugerencia) returns (av: Avance, u: Sugerencia)
    requires ms != []
    requires Recorrer(store, n, e, ms, ps) == Ok(s)
    ensures AsignarMateria(store, n, e, ms[0], ps) == Ok(av)
    ensures Recorrer(av.store, av.n, e, ms[1..], ps) == Ok(u)
    ensures s == Sugerencia(u.store, u.n, Anotar(ms[0], av.resultado, u.horario))
  {
    var a := AsignarMateria(store, n, e, ms[0], ps);
    if a.Err? {
      assert false;
    }
    av := a.value;
    var t := Recorrer(av.store, av.n, e, ms[1..], ps);
    if t.Err? {
      assert false;
    }
    u := t.value;
  }

  /** With every selected professor on record, the loop over courses never fails. */
  lemma {:induction false} RecorrerCompleto(store: seq<P.Profesor>, n: nat, e: Entorno, ms: seq<M.Materia>, ps: seq<P.Profesor>)
    ensures !Faltan(store, ps) ==> Recorrer(store, n, e, ms, ps).Ok?
    decreases |ms|
  {
    if ms != [] && !Faltan(store, ps) {
      FaltanSub(store, Elegibles(ps, ms[0]), ps);
      AsignarMateriaFalla(store, n, e, ms[0], ps);
      var av := AsignarMateria(store, n, e, ms[0], ps).value;
      AsignarMateriaIds(store, n, e, ms[0], ps, av);
      FaltanMismosIds(av.store, store, ps);
      RecorrerCompleto(av.store, av.n, e, ms[1..], ps);
    }
  }

  /**
   * The suggestion's summary: every course is counted once, as scheduled or
   * as a conflict, and the total is the sum of the scheduled courses' hours.
   */
  lemma {:induction false} RecorrerResumen(store: seq<P.Profesor>, n: nat, e: Entorno, ms: seq<M.Materia>, ps: seq<P.Profesor>, s: Sugerencia)
    requires Recorrer(store, n, e, ms, ps) == Ok(s)
    ensures s.horario.materiasAsignadas == |s.horario.materias|
    ensures s.horario.materiasSinAsignar == |s.horario.conflictos|
    ensures s.horario.materiasAsignadas + s.horario.materiasSinAsignar == |ms|
    ensures s.horario.totalHoras == SumOf(s.horario.materias, HorasDe)
    decreases |ms|
  {
    if ms != [] {
      var av, u := RecorrerPasoOk(store, n, e, ms, ps, s);
      RecorrerResumen(av.store, av.n, e, ms[1..], ps, u);
      assert ([av.resultado] + u.horario.materias)[1..] == u.horario.materias;
    }
  }

  /** Scheduled entries are successful outcomes for the loop's courses, and conflicts carry one of the two reasons. */
  lemma {:induction false} RecorrerEntradas(store: seq<P.Profesor>, n: nat, e: Entorno, ms: seq<M.Materia>, ps: seq<P.Profesor>, s: Sugerencia)
    requires Recorrer(store, n, e, ms, ps) == Ok(s)
    ensures forall x :: x in s.horario.materias ==> x.Asignada? && x.materia in ms && x.horasAsignadas > 0
    ensures forall c :: c in s.horario.conflictos ==> c.materia in ms && (c.razon == SIN_PROFESORES || c.razon == SIN_HORARIOS)
    decreases |ms|
  {
    if ms != [] {
      var av, u := RecorrerPasoOk(store, n, e, ms, ps, s);
      var res := av.resultado;
      assert res.Asignada? ==> res.materia == ms[0] && res.horasAsignadas > 0 by {
        AsignarMateriaResultado(store, n, e, ms[0], ps, av);
      }
      assert res.SinAsignar? ==> res.razon == SIN_PROFESORES || res.razon == SIN_HORARIOS by {
        AsignarMateriaResultado(store, n, e, ms[0], ps, av);
      }
      RecorrerEntradas(av.store, av.n, e, ms[1..], ps, u);
      assert forall x :: x in ms[1..] ==> x in ms;
    }
  }

  /** The loop over courses keeps every record conflict-free and within its cap. */
  lemma {:induction false} RecorrerSano(store: seq<P.Profesor>, n: nat, e: Entorno, ms: seq<M.Materia>, ps: seq<P.Profesor>, s: Sugerencia)
    requires TodosSanos(store)
    requires Recorrer(store, n, e, ms, ps) == Ok(s)
    ensures TodosSanos(s.store)
    decreases |ms|
  {
    if ms != [] {
      var av, u := RecorrerPasoOk(store, n, e, ms, ps, s);
      AsignarMateriaEfecto(store, n, e, ms[0], ps, av);
      RecorrerSano(av.store, av.n, e, ms[1..], ps, u);
    }
  }

  /** Each course's count in the store grows by exactly the hours the suggestion reports for it. */
  lemma {:induction false} RecorrerCuenta(store: seq<P.Profesor>, n: nat, e: Entorno, ms: seq<M.Materia>, ps: seq<P.Profesor>, mid: string, s: Sugerencia)
    requires Recorrer(store, n, e, ms, ps) == Ok(s)
    ensures I.ContarHorasPorMateria(s.store, mid)
         == I.ContarHorasPorMateria(store, mid) + SumOf(Having(s.horario.materias, MateriaDeResultado, mid), HorasDe)
    decreases |ms|
  {
    if ms != [] {
      var av, u := RecorrerPasoOk(store, n, e, ms, ps, s);
      var res := av.resultado;
      assert I.ContarHorasPorMateria(av.store, mid)
          == I.ContarHorasPorMateria(store, mid) + (if MateriaDeResultado(res) == mid then HorasDe(res) else 0) by {
        AsignarMateriaEfecto(store, n, e, ms[0], ps, av);
        AsignarMateriaResultado(store, n, e, ms[0], ps, av);
      }
      RecorrerCuenta(av.store, av.n, e, ms[1..], ps, mid, u);
      if res.Asignada? {
        SumaAnotada(res, u.horario.materias, mid);
      }
    }
  }

  /** A scheduled outcome entered in front adds its hours to its own course's sum only. */
  lemma SumaAnotada(res: ResultadoMateria, resto: seq<ResultadoMateria>, mid: string)
    ensures SumOf(Having([res] + resto, MateriaDeResultado, mid), HorasDe)
         == (if MateriaDeResultado(res) == mid then HorasDe(res) else 0) + SumOf(Having(resto, MateriaDeResultado, mid), HorasDe)
  {
    var xs := [res] + resto;
    var h := Having(resto, MateriaDeResultado, mid);
    assert xs[0] == res && xs[1..] == resto;
    if MateriaDeResultado(res) == mid {
      assert Having(xs, MateriaDeResultado, mid) == [res] + h;
      assert ([res] + h)[1..] == h;
    } else {
      assert Having(xs, MateriaDeResultado, mid) == h;
    }
  }

  /** `calcularHorarioSugerido` never fails: its professors come from the store itself. */
  lemma CalcularHorarioSugeridoCompleto(store: seq<P.Profesor>, n: nat, e: Entorno, materias: seq<M.Materia>, materiasIds: seq<string>, profesoresIds: seq<string>)
    ensures CalcularHorarioSugerido(store, n, e, materias, materiasIds, profesoresIds).Ok?
  {
    var ps := ProfesoresSeleccionados(store, profesoresIds);
    FaltanNinguno(store, ps);
    RecorrerCompleto(store, n, e, OrdenarMaterias(Seleccionadas(materias, materiasIds)), ps);
  }

  /**
   * The summary of `calcularHorarioSugerido`: scheduled plus unscheduled is
   * the number of selected courses, the total is the sum of the scheduled
   * hours, and every entry is a selected course.
   */
  lemma CalcularHorarioSugeridoResumen(store: seq<P.Profesor>, n: nat, e: Entorno, materias: seq<M.Materia>, materiasIds: seq<string>, profesoresIds: seq<string>, s: Sugerencia)
    requires CalcularHorarioSugerido(store, n, e, materias, materiasIds, profesoresIds) == Ok(s)
    ensures s.horario.materiasAsignadas == |s.horario.materias|
    ensures s.horario.materiasSinAsignar == |s.horario.conflictos|
    ensures s.horario.materiasAsignadas + s.horario.materiasSinAsignar == |Seleccionadas(materias, materiasIds)|
    ensures s.horario.totalHoras == SumOf(s.horario.materias, HorasDe)
    ensures forall x :: x in s.horario.materias ==> x.Asignada? && x.materia in materias && x.materia.id in materiasIds
    ensures forall c :: c in s.horario.conflictos ==> c.materia in materias && c.materia.id in materiasIds
  {
    var sel := Seleccionadas(materias, materiasIds);
    var ms := OrdenarMaterias(sel);
    RecorrerResumen(store, n, e, ms, ProfesoresSeleccionados(store, profesoresIds), s);
    RecorrerEntradas(store, n, e, ms, ProfesoresSeleccionados(store, profesoresIds), s);
    assert forall m :: m in ms ==> m in sel by {
      forall m | m in ms ensures m in sel {
        assert m in multiset(ms);
      }
    }
  }

  /** `calcularHorarioSugerido` keeps every record conflict-free and within its cap. */
  lemma CalcularHorarioSugeridoSano(store: seq<P.Profesor>, n: nat, e: Entorno, materias: seq<M.Materia>, materiasIds: seq<string>, profesoresIds: seq<string>, s: Sugerencia)
    requires TodosSanos(store)
    requires CalcularHorarioSugerido(store, n, e, materias, materiasIds, profesoresIds) == Ok(s)
    ensures TodosSanos(s.store)
  {
    RecorrerSano(store, n, e, OrdenarMaterias(Seleccionadas(materias, materiasIds)), ProfesoresSeleccionados(store, profesoresIds), s);
  }

  /** After `calcularHorarioSugerido`, each course's count has grown by exactly the hours the suggestion reports for it. */
  lemma CalcularHorarioSugeridoCuenta(store: seq<P.Profesor>, n: nat, e: Entorno, materias: seq<M.Materia>, materiasIds: seq<string>, profesoresIds: seq<string>, mid: string, s: Sugerencia)
    requires CalcularHorarioSugerido(store, n, e, materias, materiasIds, profesoresIds) == Ok(s)
    ensures I.ContarHorasPorMateria(s.store, mid)
         == I.ContarHorasPorMateria(store, mid) + SumOf(Having(s.horario.materias, MateriaDeResultado, mid), HorasDe)
  {
    RecorrerCuenta(store, n, e, OrdenarMaterias(Seleccionadas(materias, materiasIds)), ProfesoresSeleccionados(store, profesoresIds), mid, s);
  }
}
