/**
 * The course store: creation and update with numeric defaults, deletion,
 * the lookups by semester and by prerequisite, weekly and per-semester hour
 * totals, bulk import de-duplicated by code, and the per-semester summary.
 *
 * The JSON file becomes a sequence of records passed in and returned; the
 * generated ids (`Date.now()`) and ISO timestamps are parameters.
 */
module Materias {
  import opened Wrappers
  import opened Seqs

  /** Weeks per semester. */
  const SEMANAS_POR_SEMESTRE: int := 16

  datatype Materia = Materia(
    id: string,
    codigo: string,
    nombre: string,
    creditos: int,
    semestre: int,
    horasTeoria: int,
    horasPractica: int,
    horasLaboratorio: int,
    prerequisitos: seq<string>,
    descripcion: string,
    createdAt: string,
    updatedAt: Option<string>)

  /**
   * The request fields `create` and `update` read. Each numeric field is the
   * result of `parseInt`: `None` when it is missing or not a number.
   * `prerequisitos` is `None` when missing; an empty `descripcion` is falsy.
   */
  datatype DatosMateria = DatosMateria(
    codigo: string,
    nombre: string,
    creditos: Option<int>,
    semestre: Option<int>,
    horasTeoria: Option<int>,
    horasPractica: Option<int>,
    horasLaboratorio: Option<int>,
    prerequisitos: Option<seq<string>>,
    descripcion: string)

  /** The report `loadFromFile` returns. */
  datatype Informe = Informe(total: int, nuevas: int, existentes: int, materias: seq<Materia>)

  /** One course line of the per-semester summary. */
  datatype Fila = Fila(
    id: string,
    codigo: string,
    nombre: string,
    creditos: int,
    horasTeoria: int,
    horasPractica: int,
    horasLaboratorio: int,
    horasSemana: int,
    horasSemestre: int)

  /** One semester of the summary. */
  datatype Semestral = Semestral(materias: seq<Fila>, totalCreditos: int, totalHorasSemana: int, totalHorasSemestre: int)

  function Id(m: Materia): string { m.id }

  function Codigo(m: Materia): string { m.codigo }

  function Semestre(m: Materia): int { m.semestre }

  /** Weekly hours: theory, practice and laboratory. */
  function HorasSemana(m: Materia): int { m.horasTeoria + m.horasPractica + m.horasLaboratorio }

  // ---------------------------------------------------------------- create / update / delete

  /** The request's fields over `m`, each numeric one `parseInt(x) || default`. */
  function ConDatos(m: Materia, datos: DatosMateria): (r: Materia)
    ensures r.id == m.id && r.createdAt == m.createdAt && r.updatedAt == m.updatedAt
    ensures r.codigo == datos.codigo && r.nombre == datos.nombre
    ensures Truthy(datos.creditos) ==> r.creditos == datos.creditos.value
    ensures Truthy(datos.semestre) ==> r.semestre == datos.semestre.value
    ensures Truthy(datos.horasTeoria) ==> r.horasTeoria == datos.horasTeoria.value
    ensures Truthy(datos.horasPractica) ==> r.horasPractica == datos.horasPractica.value
    ensures Truthy(datos.horasLaboratorio) ==> r.horasLaboratorio == datos.horasLaboratorio.value
    ensures !Truthy(datos.creditos) ==> r.creditos == 3
    ensures !Truthy(datos.semestre) ==> r.semestre == 1
    ensures !Truthy(datos.horasTeoria) ==> r.horasTeoria == 2
    ensures !Truthy(datos.horasPractica) ==> r.horasPractica == 1
    ensures !Truthy(datos.horasLaboratorio) ==> r.horasLaboratorio == 0
    ensures r.prerequisitos == (if datos.prerequisitos.Some? then datos.prerequisitos.value else [])
    ensures r.descripcion == datos.descripcion
  {
    m.(codigo := datos.codigo,
       nombre := datos.nombre,
       creditos := Or(datos.creditos, 3),
       semestre := Or(datos.semestre, 1),
       horasTeoria := Or(datos.horasTeoria, 2),
       horasPractica := Or(datos.horasPractica, 1),
       horasLaboratorio := Or(datos.horasLaboratorio, 0),
       prerequisitos := datos.prerequisitos.GetOr([]),
       descripcion := OrStr(datos.descripcion, ""))
  }

  /** Because of `|| default`, credits, semester, theory and practice hours are never 0. */
  lemma ConDatosNoCero(m: Materia, datos: DatosMateria)
    ensures var r := ConDatos(m, datos);
      r.creditos != 0 && r.semestre != 0 && r.horasTeoria != 0 && r.horasPractica != 0
  {
  }

  /** `create`: append a record built from the request. */
  function Create(store: seq<Materia>, datos: DatosMateria, id: string, ahora: string): (r: (seq<Materia>, Materia))
    ensures r.0 == store + [r.1]
    ensures r.1 == ConDatos(r.1, datos)
    ensures r.1.id == id && r.1.createdAt == ahora && r.1.updatedAt.None?
  {
    var m := ConDatos(Materia(id, "", "", 0, 0, 0, 0, 0, [], "", ahora, None), datos);
    (store + [m], m)
  }

  /** `update`: rewrite the first record holding `id`, keeping its id and creation stamp. */
  function Update(store: seq<Materia>, id: string, datos: DatosMateria, ahora: string): (r: Result<(seq<Materia>, Materia)>)
    ensures IndexOf(store, Id, id).None? <==> r.Err?
    ensures r.Err? ==> r.msg == "Materia no encontrada"
    ensures r.Ok? ==>
      var i := IndexOf(store, Id, id).value;
      var (store', m) := r.value;
      && |store'| == |store| && store'[i] == m
      && (forall j :: 0 <= j < |store| && j != i ==> store'[j] == store[j])
      && m == ConDatos(store[i], datos).(updatedAt := Some(ahora))
      && m.id == id && m.createdAt == store[i].createdAt
  {
    match IndexOf(store, Id, id)
    case None => Err("Materia no encontrada")
    case Some(i) =>
      var m := ConDatos(store[i], datos).(updatedAt := Some(ahora));
      Ok((store[i := m], m))
  }

  /** `delete`: drop every record holding `id`; refuse when none does. */
  function Delete(store: seq<Materia>, id: string): (r: Result<seq<Materia>>)
    ensures r.Err? ==> r.msg == "Materia no encontrada"
    ensures r.Ok? ==> r.value == Without(store, Id, id)
  {
    var resto := Without(store, Id, id);
    if |resto| == |store| then Err("Materia no encontrada") else Ok(resto)
  }

  /**
   * `delete` fails exactly when no record holds the id; on success exactly
   * the records holding it are gone and every other record is kept.
   */
  lemma DeleteSpec(store: seq<Materia>, id: string)
    ensures Delete(store, id).Err? <==> IndexOf(store, Id, id).None?
    ensures Delete(store, id).Ok? ==>
      var r := Delete(store, id).value;
      && (forall i :: 0 <= i < |r| ==> r[i].id != id && r[i] in store)
      && (forall i :: 0 <= i < |store| && store[i].id != id ==> store[i] in r)
      && |store| - |r| == CountHaving(store, Id, id)
  {
    HavingWithoutSplit(store, Id, id);
    HavingSpec(store, Id, id);
    if IndexOf(store, Id, id).Some? {
      var i := IndexOf(store, Id, id).value;
      assert store[i] in Having(store, Id, id);
    } else {
      WithoutAbsent(store, Id, id);
    }
  }

  /** An update leaves the ids, and so every later lookup and deletion, as they were. */
  lemma UpdateKeepsIds(store: seq<Materia>, id: string, datos: DatosMateria, ahora: string, otro: string)
    ensures var r := Update(store, id, datos, ahora);
      r.Ok? ==> IndexOf(r.value.0, Id, otro) == IndexOf(store, Id, otro)
                && |Without(r.value.0, Id, otro)| == |Without(store, Id, otro)|
  {
    var r := Update(store, id, datos, ahora);
    if r.Ok? {
      IndexOfSameKeys(r.value.0, store, Id, otro);
      HavingWithoutSplit(store, Id, otro);
      HavingWithoutSplit(r.value.0, Id, otro);
      HavingSameKeys(r.value.0, store, Id, otro);
    }
  }

  /** Sequences with the same keys, position by position, select equally many elements. */
  lemma {:induction false} HavingSameKeys<T>(a: seq<T>, b: seq<T>, key: T -> string, k: string)
    requires |a| == |b| && forall j :: 0 <= j < |a| ==> key(a[j]) == key(b[j])
    ensures |Having(a, key, k)| == |Having(b, key, k)|
  {
    if a != [] {
      HavingSameKeys(a[1..], b[1..], key, k);
    }
  }

  // ---------------------------------------------------------------- lookups

  /** `getBySemestre`: the courses whose semester equals `parseInt(semestre)`; NaN matches nothing. */
  function GetBySemestre(store: seq<Materia>, semestre: Option<int>): (r: seq<Materia>)
    ensures forall i :: 0 <= i < |r| ==> r[i] in store && semestre == Some(r[i].semestre)
    ensures forall i :: 0 <= i < |store| && semestre == Some(store[i].semestre) ==> store[i] in r
  {
    match semestre
    case None => []
    case Some(s) =>
      HavingSpec(store, Semestre, s);
      Having(store, Semestre, s)
  }

  /** Store order is kept: a record added last is listed last. */
  lemma GetBySemestreAppend(store: seq<Materia>, m: Materia, s: int)
    ensures GetBySemestre(store + [m], Some(s))
         == GetBySemestre(store, Some(s)) + (if m.semestre == s then [m] else [])
  {
    HavingConcat(store, [m], Semestre, s);
  }

  /**
   * `getPrerequisitos`: the stored courses whose id is listed as a
   * prerequisite of the first course holding `materiaId`; none when that
   * course is missing or lists none.
   */
  function GetPrerequisitos(store: seq<Materia>, materiaId: string): (r: seq<Materia>)
    ensures IndexOf(store, Id, materiaId).None? ==> r == []
    ensures IndexOf(store, Id, materiaId).Some? ==>
      var req := store[IndexOf(store, Id, materiaId).value].prerequisitos;
      && (forall i :: 0 <= i < |r| ==> r[i] in store && r[i].id in req)
      && (forall i :: 0 <= i < |store| && store[i].id in req ==> store[i] in r)
  {
    match IndexOf(store, Id, materiaId)
    case None => []
    case Some(i) =>
      var req := store[i].prerequisitos;
      if |req| == 0 then [] else
        HavingSpec(store, (m: Materia) => m.id in req, true);
        Filter(store, (m: Materia) => m.id in req)
  }

  /** `getTotalHoras`: the weekly hours of the first course holding the id, or 0. */
  function GetTotalHoras(store: seq<Materia>, materiaId: string): (r: int)
    ensures IndexOf(store, Id, materiaId).None? ==> r == 0
    ensures IndexOf(store, Id, materiaId).Some? ==>
      var m := store[IndexOf(store, Id, materiaId).value];
      r == m.horasTeoria + m.horasPractica + m.horasLaboratorio
  {
    match IndexOf(store, Id, materiaId)
    case None => 0
    case Some(i) => HorasSemana(store[i])
  }

  /** `getHorasSemestrales`: 16 weeks of the course's weekly hours, or 0. */
  function GetHorasSemestrales(store: seq<Materia>, materiaId: string): int {
    match IndexOf(store, Id, materiaId)
    case None => 0
    case Some(i) => HorasSemana(store[i]) * SEMANAS_POR_SEMESTRE
  }

  /** The semester hours are always 16 times the weekly hours, missing course included. */
  lemma HorasSemestralesSpec(store: seq<Materia>, materiaId: string)
    ensures GetHorasSemestrales(store, materiaId) == 16 * GetTotalHoras(store, materiaId)
  {
  }

  // ---------------------------------------------------------------- import

  /** The codes of the stored courses. */
  function Codigos(store: seq<Materia>): set<string> {
    set i | 0 <= i < |store| :: store[i].codigo
  }

  /** The import's test: the entry's code is not among the codes stored before the import. */
  function NoImportada(snapshot: set<string>): DatosMateria -> bool {
    (d: DatosMateria) => d.codigo !in snapshot
  }

  /**
   * The import loop from entry `k` on: each entry whose code is not in the
   * pre-import `snapshot` is created (with the id `ids(n)`, `n` counting
   * creations so far) and appended to the store; the others are skipped.
   */
  function Importar(snapshot: set<string>, store: seq<Materia>, ds: seq<DatosMateria>,
                    ids: nat -> string, n: nat, ahora: string): (r: (seq<Materia>, seq<Materia>))
    ensures r.0 == store + r.1
    ensures |r.1| == |Filter(ds, NoImportada(snapshot))|
    ensures forall i :: 0 <= i < |r.1| ==> r.1[i].codigo !in snapshot
    decreases |ds|
  {
    if ds == [] then (store, [])
    else if ds[0].codigo in snapshot then Importar(snapshot, store, ds[1..], ids, n, ahora)
    else
      var (store1, m) := Create(store, ds[0], ids(n), ahora);
      var (store2, nuevas) := Importar(snapshot, store1, ds[1..], ids, n + 1, ahora);
      (store2, [m] + nuevas)
  }

  /** The records `create` builds from `fs` in order, with the ids `ids(n)`, `ids(n + 1)`, ... */
  function Creadas(fs: seq<DatosMateria>, ids: nat -> string, n: nat, ahora: string): (r: seq<Materia>)
    ensures |r| == |fs|
    decreases |fs|
  {
    if fs == [] then [] else [Create([], fs[0], ids(n), ahora).1] + Creadas(fs[1..], ids, n + 1, ahora)
  }

  /** The `i`-th of the built records comes from the `i`-th entry, with the id `ids(n + i)`. */
  lemma {:induction false} CreadasSpec(fs: seq<DatosMateria>, ids: nat -> string, n: nat, ahora: string)
    ensures forall i :: 0 <= i < |fs| ==> Creadas(fs, ids, n, ahora)[i] == Create([], fs[i], ids(n + i), ahora).1
    decreases |fs|
  {
    if fs != [] {
      CreadasSpec(fs[1..], ids, n + 1, ahora);
      var r := Creadas(fs, ids, n, ahora);
      forall i | 0 <= i < |fs| ensures r[i] == Create([], fs[i], ids(n + i), ahora).1 {
        if i > 0 {
          assert r[i] == Creadas(fs[1..], ids, n + 1, ahora)[i - 1];
          assert fs[i] == fs[1..][i - 1];
        }
      }
    }
  }

  /**
   * The import creates exactly the entries whose code is not in the
   * snapshot, in file order, numbering their ids from `ids(n)`.
   */
  lemma {:induction false} ImportarContenido(snapshot: set<string>, store: seq<Materia>, ds: seq<DatosMateria>,
                                            ids: nat -> string, n: nat, ahora: string)
    ensures Importar(snapshot, store, ds, ids, n, ahora).1 == Creadas(Filter(ds, NoImportada(snapshot)), ids, n, ahora)
    decreases |ds|
  {
    if ds != [] {
      var resto := Filter(ds[1..], NoImportada(snapshot));
      if ds[0].codigo in snapshot {
        assert Filter(ds, NoImportada(snapshot)) == resto;
        ImportarContenido(snapshot, store, ds[1..], ids, n, ahora);
      } else {
        var fs := Filter(ds, NoImportada(snapshot));
        assert fs == [ds[0]] + resto;
        assert fs[1..] == resto;
        var store1 := Create(store, ds[0], ids(n), ahora).0;
        ImportarContenido(snapshot, store1, ds[1..], ids, n + 1, ahora);
      }
    }
  }

  /** Every failure of the import is re-thrown with this prefix. */
  function ErrorCarga(msg: string): string {
    "Error al cargar archivo: " + msg
  }

  /**
   * `loadFromFile`, after reading and parsing: a non-array is refused;
   * otherwise every entry whose code is not already stored is created and
   * the report counts the created and the skipped entries.
   */
  function LoadFromFile(store: seq<Materia>, importadas: Option<seq<DatosMateria>>, ids: nat -> string, ahora: string)
    : (r: Result<(seq<Materia>, Informe)>)
    ensures importadas.None? <==> r.Err?
    ensures r.Err? ==> r.msg == ErrorCarga("El archivo debe contener un array de materias")
    ensures r.Ok? ==>
      var (store', informe) := r.value;
      && store' == store + informe.materias
      && informe.total == |importadas.value|
      && informe.nuevas == |informe.materias|
      && informe.nuevas + informe.existentes == informe.total
      && 0 <= informe.existentes
      && (forall i :: 0 <= i < |informe.materias| ==> informe.materias[i].codigo !in Codigos(store))
      && var fs := Filter(importadas.value, NoImportada(Codigos(store)));
         && informe.nuevas == |fs|
         && forall i :: 0 <= i < |fs| ==> informe.materias[i] == Create([], fs[i], ids(i), ahora).1
  {
    match importadas
    case None => Err(ErrorCarga("El archivo debe contener un array de materias"))
    case Some(ds) =>
      var (store', nuevas) := Importar(Codigos(store), store, ds, ids, 0, ahora);
      HavingSpec(ds, NoImportada(Codigos(store)), true);
      ImportarContenido(Codigos(store), store, ds, ids, 0, ahora);
      CreadasSpec(Filter(ds, NoImportada(Codigos(store))), ids, 0, ahora);
      Ok((store', Informe(|ds|, |nuevas|, |ds| - |nuevas|, nuevas)))
  }

  /**
   * The code check uses the pre-import store only: two entries that share a
   * code not yet stored are both created.
   */
  lemma ImportaDuplicados(store: seq<Materia>, d: DatosMateria, ids: nat -> string, ahora: string)
    requires d.codigo !in Codigos(store)
    ensures var r := LoadFromFile(store, Some([d, d]), ids, ahora);
      r.Ok? && r.value.1.nuevas == 2 && r.value.1.existentes == 0
  {
    var ds := [d, d];
    assert ds[1..] == [d];
    assert ds[1..][1..] == [];
  }

  /** Importing entries whose codes are all stored changes nothing. */
  lemma ImportaExistentes(store: seq<Materia>, ds: seq<DatosMateria>, ids: nat -> string, ahora: string)
    requires forall i :: 0 <= i < |ds| ==> ds[i].codigo in Codigos(store)
    ensures var r := LoadFromFile(store, Some(ds), ids, ahora);
      r.Ok? && r.value.0 == store && r.value.1.nuevas == 0 && r.value.1.existentes == |ds|
  {
    var keep := NoImportada(Codigos(store));
    FiltraNinguno(ds, keep);
  }

  /** Filtering with a test no element passes gives nothing. */
  lemma {:induction false} FiltraNinguno<T>(s: seq<T>, p: T -> bool)
    requires forall i :: 0 <= i < |s| ==> !p(s[i])
    ensures Filter(s, p) == []
  {
    if s != [] {
      FiltraNinguno(s[1..], p);
    }
  }

  // ---------------------------------------------------------------- per-semester summary

  function FilaDe(m: Materia): Fila {
    Fila(m.id, m.codigo, m.nombre, m.creditos, m.horasTeoria, m.horasPractica, m.horasLaboratorio,
         HorasSemana(m), HorasSemana(m) * SEMANAS_POR_SEMESTRE)
  }

  function Creditos(m: Materia): int { m.creditos }

  function HorasSemestre(m: Materia): int { HorasSemana(m) * SEMANAS_POR_SEMESTRE }

  /** Adds one course to its semester's entry, creating the entry empty first. */
  function Sumar(r: map<int, Semestral>, m: Materia): map<int, Semestral> {
    var e := if m.semestre in r then r[m.semestre] else Semestral([], 0, 0, 0);
    r[m.semestre := Semestral(
      e.materias + [FilaDe(m)],
      e.totalCreditos + m.creditos,
      e.totalHorasSemana + HorasSemana(m),
      e.totalHorasSemestre + HorasSemana(m) * SEMANAS_POR_SEMESTRE)]
  }

  /** `getResumenSemestral`: the courses folded in store order into their semesters' entries. */
  function GetResumenSemestral(store: seq<Materia>): map<int, Semestral> {
    if store == [] then map[] else Sumar(GetResumenSemestral(store[..|store| - 1]), store[|store| - 1])
  }

  function Filas(ms: seq<Materia>): (r: seq<Fila>)
    ensures |r| == |ms|
  {
    if ms == [] then [] else [FilaDe(ms[0])] + Filas(ms[1..])
  }

  /** A semester entry lists exactly `ms` and holds their sums; semester hours are 16 times weekly hours. */
  predicate Correcta(e: Semestral, ms: seq<Materia>) {
    && e.materias == Filas(ms)
    && e.totalCreditos == SumOf(ms, Creditos)
    && e.totalHorasSemana == SumOf(ms, HorasSemana)
    && e.totalHorasSemestre == SumOf(ms, HorasSemestre)
    && e.totalHorasSemestre == SEMANAS_POR_SEMESTRE * e.totalHorasSemana
  }

  /**
   * The summary has an entry exactly for each stored semester; each entry
   * lists that semester's courses in store order, and its totals are the
   * sums over them, the semester hours being 16 times the weekly hours.
   */
  lemma {:induction false} ResumenSemestralSpec(store: seq<Materia>)
    ensures GetResumenSemestral(store).Keys == set i | 0 <= i < |store| :: store[i].semestre
    ensures forall s :: s in GetResumenSemestral(store) ==>
      Correcta(GetResumenSemestral(store)[s], Having(store, Semestre, s))
  {
    if store != [] {
      var n := |store| - 1;
      var ini := store[..n];
      var m := store[n];
      assert store == ini + [m];
      ResumenSemestralSpec(ini);
      assert (set i | 0 <= i < |store| :: store[i].semestre) == (set i | 0 <= i < n :: ini[i].semestre) + {m.semestre} by {
        assert forall i :: 0 <= i < n ==> store[i] == ini[i];
      }
      forall s | s in GetResumenSemestral(store)
        ensures Correcta(GetResumenSemestral(store)[s], Having(store, Semestre, s))
      {
        if s !in GetResumenSemestral(ini) {
          GroupByNoBucketSet(ini, s);
        }
        ResumenPaso(ini, m, s);
      }
    }
  }

  /** One fold step: the new course's semester gains it at the end, and no other semester changes. */
  lemma ResumenPaso(ini: seq<Materia>, m: Materia, s: int)
    requires s in GetResumenSemestral(ini) ==> Correcta(GetResumenSemestral(ini)[s], Having(ini, Semestre, s))
    requires s !in GetResumenSemestral(ini) ==> Having(ini, Semestre, s) == []
    requires s in GetResumenSemestral(ini + [m])
    ensures Correcta(GetResumenSemestral(ini + [m])[s], Having(ini + [m], Semestre, s))
  {
    var store := ini + [m];
    assert store[..|store| - 1] == ini;
    var r0 := GetResumenSemestral(ini);
    assert GetResumenSemestral(store) == Sumar(r0, m);
    HavingConcat(ini, [m], Semestre, s);
    if s == m.semestre {
      var e := if s in r0 then r0[s] else Semestral([], 0, 0, 0);
      var prev := Having(ini, Semestre, s);
      assert Correcta(e, prev);
      assert Having([m], Semestre, s) == [m];
      SumarMismo(e, prev, m);
    } else {
      assert Having([m], Semestre, s) == [];
      assert Having(store, Semestre, s) == Having(ini, Semestre, s);
    }
  }

  /** Adding a course to a correct entry of its semester gives a correct entry. */
  lemma SumarMismo(e: Semestral, prev: seq<Materia>, m: Materia)
    requires Correcta(e, prev)
    ensures Correcta(Semestral(
      e.materias + [FilaDe(m)],
      e.totalCreditos + m.creditos,
      e.totalHorasSemana + HorasSemana(m),
      e.totalHorasSemestre + HorasSemana(m) * SEMANAS_POR_SEMESTRE), prev + [m])
  {
    FilasSnoc(prev, m);
    SumOfConcat(prev, [m], Creditos);
    SumOfConcat(prev, [m], HorasSemana);
    SumOfConcat(prev, [m], HorasSemestre);
  }

  /** A semester no course has selects no course. */
  lemma GroupByNoBucketSet(ms: seq<Materia>, s: int)
    requires s !in set i | 0 <= i < |ms| :: ms[i].semestre
    ensures Having(ms, Semestre, s) == []
  {
    assert forall i :: 0 <= i < |ms| ==> ms[i].semestre != s;
    WithoutAbsentHaving(ms, s);
  }

  lemma {:induction false} WithoutAbsentHaving(ms: seq<Materia>, s: int)
    requires forall i :: 0 <= i < |ms| ==> ms[i].semestre != s
    ensures Having(ms, Semestre, s) == []
  {
    if ms != [] {
      WithoutAbsentHaving(ms[1..], s);
    }
  }

  lemma {:induction false} FilasSnoc(ms: seq<Materia>, m: Materia)
    ensures Filas(ms + [m]) == Filas(ms) + [FilaDe(m)]
  {
    if ms == [] {
      assert ms + [m] == [m];
    } else {
      assert (ms + [m])[1..] == ms[1..] + [m];
      FilasSnoc(ms[1..], m);
    }
  }

  /** The summary's semester entry lists the same courses `getBySemestre` returns. */
  lemma ResumenPorSemestre(store: seq<Materia>, s: int)
    requires s in GetResumenSemestral(store)
    ensures GetResumenSemestral(store)[s].materias == Filas(GetBySemestre(store, Some(s)))
  {
    ResumenSemestralSpec(store);
  }
}
