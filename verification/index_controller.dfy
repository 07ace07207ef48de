/**
 * The pure parts of the dashboard controller: the quick statistics, the five
 * most loaded professors, the courses grouped by semester, the detailed
 * statistics page and the search over professors and courses.
 */
module IndexController {
  import opened Wrappers
  import opened Seqs
  import opened Sorting
  import opened Text
  import P = Profesores
  import M = Materias
  import I = HorariosInforme

  /** `slice(0, n)`: the first `n` elements, or all of them when there are fewer. */
  function Primeros<T>(s: seq<T>, n: nat): (r: seq<T>)
    ensures |r| == if |s| < n then |s| else n
    ensures r <= s
  {
    if |s| <= n then s else s[..n]
  }

  /** Splitting by a boolean key puts every element on exactly one side. */
  lemma {:induction false} Particion<T>(s: seq<T>, key: T -> bool)
    ensures |Having(s, key, true)| + |Having(s, key, false)| == |s|
  {
    if s != [] {
      Particion(s[1..], key);
      if key(s[0]) {
        assert Having(s, key, true) == [s[0]] + Having(s[1..], key, true);
        assert Having(s, key, false) == Having(s[1..], key, false);
      } else {
        assert Having(s, key, true) == Having(s[1..], key, true);
        assert Having(s, key, false) == [s[0]] + Having(s[1..], key, false);
      }
    }
  }

  // ---------------------------------------------------------------- index

  /** How many dashboard entries each list shows. */
  const MOSTRADOS: nat := 5

  datatype Estadisticas = Estadisticas(
    totalProfesores: nat,
    totalMaterias: nat,
    totalHoras: int,
    conflictos: nat,
    materiasCompletadas: nat,
    materiasPendientes: nat)

  datatype Inicio = Inicio(
    estadisticas: Estadisticas,
    profesoresConCarga: seq<I.FilaProfesor>,
    materiasPorSemestre: map<int, seq<M.Materia>>,
    conflictos: seq<I.Hallazgo>,
    resumen: I.ResumenHorario)

  function Completado(f: I.FilaMateria): bool { f.completado }

  /** The quick statistics of the dashboard. */
  function EstadisticasRapidas(profesores: seq<P.Profesor>, materias: seq<M.Materia>,
                               resumen: I.ResumenHorario, conflictos: seq<I.Hallazgo>): Estadisticas
  {
    Estadisticas(
      |profesores|,
      |materias|,
      resumen.totalHoras,
      |conflictos|,
      |Having(resumen.materias, Completado, true)|,
      |Having(resumen.materias, Completado, false)|)
  }

  /** Heaviest load first; equal loads keep their order. */
  function ClaveCarga(f: I.FilaProfesor): Key { (-f.horasAsignadas, 0) }

  /** The five professors with the most hours, heaviest first. */
  function ProfesoresConCarga(filas: seq<I.FilaProfesor>): seq<I.FilaProfesor> {
    Primeros(SortBy(filas, ClaveCarga), MOSTRADOS)
  }

  /** Whether `materia.semestre` is truthy. */
  function TieneSemestre(m: M.Materia): bool { m.semestre != 0 }

  /** The courses with a truthy semester, grouped by semester. */
  function MateriasPorSemestre(ms: seq<M.Materia>): map<int, seq<M.Materia>> {
    GroupBy(Filter(ms, TieneSemestre), M.Semestre)
  }

  /** `index`: the dashboard over the store, the catalogue, the summary and the validation findings. */
  function Index(store: seq<P.Profesor>, materias: seq<M.Materia>): Inicio {
    var resumen := I.GenerarResumenHorario(store, materias);
    var conflictos := I.ValidarHorarioCompleto(store);
    Inicio(
      EstadisticasRapidas(store, materias, resumen, conflictos),
      ProfesoresConCarga(resumen.profesores),
      MateriasPorSemestre(materias),
      Primeros(conflictos, MOSTRADOS),
      resumen)
  }

  /**
   * The completed and pending courses split the summary's courses, the
   * totals are the list sizes and the summary's hours, and at most five
   * findings are shown, the first ones.
   */
  lemma IndexEstadisticas(store: seq<P.Profesor>, materias: seq<M.Materia>)
    ensures var r := Index(store, materias);
      && r.estadisticas.totalProfesores == |store|
      && r.estadisticas.totalMaterias == |materias|
      && r.estadisticas.materiasCompletadas + r.estadisticas.materiasPendientes == |materias|
      && r.estadisticas.totalHoras == SumOf(r.resumen.profesores, I.HorasAsignadas)
      && r.estadisticas.conflictos == |I.ValidarHorarioCompleto(store)|
      && |r.conflictos| <= MOSTRADOS
      && r.conflictos <= I.ValidarHorarioCompleto(store)
  {
    var resumen := I.GenerarResumenHorario(store, materias);
    Particion(resumen.materias, Completado);
  }

  /** The completed courses are exactly the summary lines whose hours reach the need. */
  lemma IndexCompletadas(store: seq<P.Profesor>, materias: seq<M.Materia>)
    ensures var r := Index(store, materias);
      forall f :: f in Having(r.resumen.materias, Completado, true) <==>
        f in r.resumen.materias && f.horasAsignadas >= f.horasNecesarias
  {
    var resumen := I.GenerarResumenHorario(store, materias);
    HavingSpec(resumen.materias, Completado, true);
    forall f | f in resumen.materias ensures f.completado <==> f.horasAsignadas >= f.horasNecesarias {
      var k :| 0 <= k < |resumen.materias| && resumen.materias[k] == f;
    }
  }

  /** The professors shown are the first of the sorted list, heaviest first. */
  lemma ProfesoresConCargaOrden(filas: seq<I.FilaProfesor>)
    ensures var r := ProfesoresConCarga(filas);
      forall i, j :: 0 <= i < j < |r| ==> r[i].horasAsignadas >= r[j].horasAsignadas
  {
    var s := SortBy(filas, ClaveCarga);
    var r := Primeros(s, MOSTRADOS);
    forall i, j | 0 <= i < j < |r| ensures r[i].horasAsignadas >= r[j].horasAsignadas {
      assert KeyLe(ClaveCarga(s[i]), ClaveCarga(s[j]));
    }
  }

  /** The professors left out are the rest of the sorted list, none heavier than one shown. */
  lemma ProfesoresConCargaResto(filas: seq<I.FilaProfesor>)
    ensures var r := ProfesoresConCarga(filas);
      && multiset(r) <= multiset(filas)
      && (forall x :: x in multiset(filas) - multiset(r) ==>
            forall i :: 0 <= i < |r| ==> r[i].horasAsignadas >= x.horasAsignadas)
  {
    var s := SortBy(filas, ClaveCarga);
    var r := Primeros(s, MOSTRADOS);
    assert s == r + s[|r|..];
    assert multiset(s) == multiset(r) + multiset(s[|r|..]);
    forall x | x in multiset(filas) - multiset(r)
      ensures forall i :: 0 <= i < |r| ==> r[i].horasAsignadas >= x.horasAsignadas
    {
      assert x in s[|r|..];
      var j :| 0 <= j < |s[|r|..]| && s[|r|..][j] == x;
      forall i | 0 <= i < |r| ensures r[i].horasAsignadas >= x.horasAsignadas {
        assert KeyLe(ClaveCarga(s[i]), ClaveCarga(s[|r| + j]));
      }
    }
  }

  /**
   * At most five professors are shown, heaviest first; they come from the
   * summary, and every professor left out has no more hours than any shown.
   */
  lemma ProfesoresConCargaSpec(filas: seq<I.FilaProfesor>)
    ensures var r := ProfesoresConCarga(filas);
      && |r| == (if |filas| < MOSTRADOS then |filas| else MOSTRADOS)
      && (forall i, j :: 0 <= i < j < |r| ==> r[i].horasAsignadas >= r[j].horasAsignadas)
      && multiset(r) <= multiset(filas)
      && (forall x :: x in multiset(filas) - multiset(r) ==>
            forall i :: 0 <= i < |r| ==> r[i].horasAsignadas >= x.horasAsignadas)
  {
    ProfesoresConCargaOrden(filas);
    ProfesoresConCargaResto(filas);
  }

  /** Selecting a nonzero semester among the courses with a truthy one is selecting it among all. */
  lemma {:induction false} SemestreTrasFiltro(ms: seq<M.Materia>, s: int)
    requires s != 0
    ensures Having(Filter(ms, TieneSemestre), M.Semestre, s) == Having(ms, M.Semestre, s)
  {
    if ms != [] {
      SemestreTrasFiltro(ms[1..], s);
      var cabeza := if TieneSemestre(ms[0]) then [ms[0]] else [];
      assert Filter(ms, TieneSemestre) == cabeza + Filter(ms[1..], TieneSemestre);
      HavingConcat(cabeza, Filter(ms[1..], TieneSemestre), M.Semestre, s);
      if TieneSemestre(ms[0]) {
        assert Having(cabeza, M.Semestre, s) == if ms[0].semestre == s then [ms[0]] else [];
      }
    }
  }

  /** Every bucket is a nonzero semester some course has, holding that semester's courses in order. */
  lemma MateriasPorSemestreCubetas(ms: seq<M.Materia>)
    ensures var r := MateriasPorSemestre(ms);
      forall s :: s in r ==> s != 0 && r[s] == Having(ms, M.Semestre, s)
  {
    var f := Filter(ms, TieneSemestre);
    var r := MateriasPorSemestre(ms);
    forall s | s in r ensures s != 0 && r[s] == Having(ms, M.Semestre, s) {
      HavingSpec(f, M.Semestre, s);
      HavingSpec(ms, TieneSemestre, true);
      assert r[s][0] in Having(f, M.Semestre, s);
      SemestreTrasFiltro(ms, s);
    }
  }

  /** Every course with a truthy semester has a bucket. */
  lemma MateriasPorSemestreClaves(ms: seq<M.Materia>)
    ensures forall i :: 0 <= i < |ms| && ms[i].semestre != 0 ==> ms[i].semestre in MateriasPorSemestre(ms)
  {
    var f := Filter(ms, TieneSemestre);
    HavingSpec(ms, TieneSemestre, true);
    forall i | 0 <= i < |ms| && ms[i].semestre != 0 ensures ms[i].semestre in MateriasPorSemestre(ms) {
      assert ms[i] in f;
      var j :| 0 <= j < |f| && f[j] == ms[i];
    }
  }

  /**
   * A bucket exists exactly for each truthy semester some course has, and
   * holds exactly that semester's courses in catalogue order.
   */
  lemma MateriasPorSemestreSpec(ms: seq<M.Materia>)
    ensures var r := MateriasPorSemestre(ms);
      && (forall s :: s in r <==> s != 0 && exists i :: 0 <= i < |ms| && ms[i].semestre == s)
      && (forall s :: s in r ==> r[s] == Having(ms, M.Semestre, s))
  {
    var r := MateriasPorSemestre(ms);
    MateriasPorSemestreCubetas(ms);
    MateriasPorSemestreClaves(ms);
    forall s | s in r ensures exists i :: 0 <= i < |ms| && ms[i].semestre == s {
      HavingSpec(ms, M.Semestre, s);
      assert r[s][0] in ms;
    }
  }

  // ---------------------------------------------------------------- estadisticas

  datatype DetalleProfesores = DetalleProfesores(total: nat, conHorarios: nat, sinHorarios: nat)
  datatype DetalleMaterias = DetalleMaterias(total: nat, completadas: nat, pendientes: nat, porSemestre: map<int, nat>)
  datatype DetalleHorarios = DetalleHorarios(
    totalHoras: int,
    distribucionPorDia: seq<(string, int)>,
    distribucionPorTipo: seq<(string, int)>,
    conflictos: nat)
  datatype Detalle = Detalle(profesores: DetalleProfesores, materias: DetalleMaterias, horarios: DetalleHorarios)

  function TieneHorarios(p: P.Profesor): bool { |p.horarios| > 0 }

  /** Every course counted under its semester, whatever the semester is. */
  function PorSemestre(ms: seq<M.Materia>): map<int, nat> {
    var g := GroupBy(ms, M.Semestre);
    map s | s in g :: |g[s]|
  }

  /** `estadisticas`: the detailed statistics page. */
  function EstadisticasDetalle(store: seq<P.Profesor>, materias: seq<M.Materia>): Detalle {
    var resumen := I.GenerarResumenHorario(store, materias);
    Detalle(
      DetalleProfesores(|store|, |Having(store, TieneHorarios, true)|, |Having(store, TieneHorarios, false)|),
      DetalleMaterias(
        |materias|,
        |Having(resumen.materias, Completado, true)|,
        |Having(resumen.materias, Completado, false)|,
        PorSemestre(materias)),
      DetalleHorarios(resumen.totalHoras, resumen.distribucionPorDia, resumen.distribucionPorTipo,
        |I.ValidarHorarioCompleto(store)|))
  }

  /** No professor lacks blocks exactly when every professor has some. */
  lemma SinHorariosVacio(store: seq<P.Profesor>)
    ensures |Having(store, TieneHorarios, false)| == 0 <==> forall i :: 0 <= i < |store| ==> store[i].horarios != []
  {
    var sin := Having(store, TieneHorarios, false);
    HavingSpec(store, TieneHorarios, false);
    if sin != [] {
      assert sin[0] in sin;
    }
  }

  /** Professors with and without blocks split the store; completed and pending courses split the catalogue. */
  lemma EstadisticasDetalleTotales(store: seq<P.Profesor>, materias: seq<M.Materia>)
    ensures var d := EstadisticasDetalle(store, materias);
      && d.profesores.conHorarios + d.profesores.sinHorarios == d.profesores.total == |store|
      && d.materias.completadas + d.materias.pendientes == d.materias.total == |materias|
      && (d.profesores.sinHorarios == 0 <==> forall i :: 0 <= i < |store| ==> store[i].horarios != [])
  {
    var resumen := I.GenerarResumenHorario(store, materias);
    Particion(store, TieneHorarios);
    Particion(resumen.materias, Completado);
    SinHorariosVacio(store);
  }

  /**
   * A semester is a key exactly when some course has it, with the number of
   * courses having it; for a truthy semester that is the size of the
   * dashboard's bucket, and the falsy semester 0 has no bucket there.
   */
  lemma PorSemestreSpec(ms: seq<M.Materia>)
    ensures forall s :: s in PorSemestre(ms) <==> exists i :: 0 <= i < |ms| && ms[i].semestre == s
    ensures forall s :: s in PorSemestre(ms) ==> PorSemestre(ms)[s] == CountHaving(ms, M.Semestre, s) > 0
    ensures forall s :: s in PorSemestre(ms) && s != 0 ==>
      s in MateriasPorSemestre(ms) && PorSemestre(ms)[s] == |MateriasPorSemestre(ms)[s]|
    ensures 0 !in MateriasPorSemestre(ms)
  {
    var g := GroupBy(ms, M.Semestre);
    MateriasPorSemestreSpec(ms);
    forall s | s in g ensures exists i :: 0 <= i < |ms| && ms[i].semestre == s {
      HavingSpec(ms, M.Semestre, s);
      assert g[s][0] in ms;
    }
  }

  // ---------------------------------------------------------------- buscar

  const TODOS: string := "todos"
  const PROFESORES: string := "profesores"
  const MATERIAS: string := "materias"
  const DE_PROFESOR: string := "profesor"
  const DE_MATERIA: string := "materia"

  datatype Resultado = Resultado(tipo: string, id: string, titulo: string, subtitulo: string, descripcion: string)
  datatype Busqueda = Busqueda(query: string, tipo: string, resultados: seq<Resultado>)

  /** `a.toLowerCase().includes(q.toLowerCase())`. */
  predicate Coincide(a: string, q: string) {
    Contains(Lower(a), Lower(q))
  }

  /** A professor matches on first name, last name, specialty or email. */
  predicate ProfesorCoincide(p: P.Profesor, q: string) {
    Coincide(p.nombre, q) || Coincide(p.apellido, q) || Coincide(p.especialidad, q) || Coincide(p.email, q)
  }

  /** A course matches on name, code or description. */
  predicate MateriaCoincide(m: M.Materia, q: string) {
    Coincide(m.nombre, q) || Coincide(m.codigo, q) || Coincide(m.descripcion, q)
  }

  function ProfesorCoincideCon(q: string): P.Profesor -> bool { p => ProfesorCoincide(p, q) }
  function MateriaCoincideCon(q: string): M.Materia -> bool { m => MateriaCoincide(m, q) }

  function Digito(d: nat): char
    requires d < 10
  {
    ('0' as int + d) as char
  }

  /** The decimal digits of a natural number, most significant first, without leading zeros. */
  function Digitos(n: nat): (r: string)
    ensures |r| > 0
    ensures forall i :: 0 <= i < |r| ==> '0' <= r[i] <= '9'
    decreases n
  {
    if n < 10 then [Digito(n)] else Digitos(n / 10) + [Digito(n % 10)]
  }

  /** `${n}` for an integer: a minus sign for a negative number, then its digits. */
  function Decimal(n: int): string {
    if n < 0 then "-" + Digitos(-n) else Digitos(n)
  }

  /** Reads back a string of decimal digits. */
  function LeerDigitos(s: string): int
    decreases |s|
  {
    if s == [] then 0 else LeerDigitos(s[..|s| - 1]) * 10 + (s[|s| - 1] as int - '0' as int)
  }

  /** Reads back a decimal integer with an optional minus sign. */
  function LeerDecimal(s: string): int {
    if |s| > 0 && s[0] == '-' then -LeerDigitos(s[1..]) else LeerDigitos(s)
  }

  lemma {:induction false} DigitosIdaYVuelta(n: nat)
    ensures LeerDigitos(Digitos(n)) == n
    decreases n
  {
    if n >= 10 {
      DigitosIdaYVuelta(n / 10);
      var s := Digitos(n / 10) + [Digito(n % 10)];
      assert s[..|s| - 1] == Digitos(n / 10);
    }
  }

  /** Writing an integer in decimal and reading it back gives the integer again. */
  lemma DecimalIdaYVuelta(n: int)
    ensures LeerDecimal(Decimal(n)) == n
  {
    if n < 0 {
      DigitosIdaYVuelta(-n);
      assert ("-" + Digitos(-n))[1..] == Digitos(-n);
    } else {
      DigitosIdaYVuelta(n);
    }
  }

  function ResultadoProfesor(p: P.Profesor): Resultado {
    Resultado(DE_PROFESOR, p.id, p.nombre + " " + p.apellido, p.especialidad, p.email)
  }

  function ResultadoMateria(m: M.Materia): Resultado {
    Resultado(DE_MATERIA, m.id, m.nombre, "Código: " + m.codigo,
      "Semestre " + Decimal(m.semestre) + " - " + Decimal(m.creditos) + " créditos")
  }

  function ResultadosProfesores(ps: seq<P.Profesor>): seq<Resultado> {
    seq(|ps|, i requires 0 <= i < |ps| => ResultadoProfesor(ps[i]))
  }

  function ResultadosMaterias(ms: seq<M.Materia>): seq<Resultado> {
    seq(|ms|, i requires 0 <= i < |ms| => ResultadoMateria(ms[i]))
  }

  /** The search kind: `tipo || 'todos'`. */
  function TipoBusqueda(tipo: Option<string>): string {
    OrStr(tipo.GetOr(""), TODOS)
  }

  predicate BuscaProfesores(t: string) { t == PROFESORES || t == TODOS }
  predicate BuscaMaterias(t: string) { t == MATERIAS || t == TODOS }

  /**
   * `buscar`: nothing for a blank query; otherwise the matching professors
   * when the kind asks for them, then the matching courses when it asks for
   * them.
   */
  function Buscar(profesores: seq<P.Profesor>, materias: seq<M.Materia>, q: Option<string>, tipo: Option<string>): Busqueda {
    var query := q.GetOr("");
    var t := TipoBusqueda(tipo);
    if IsBlank(query) then Busqueda(query, t, [])
    else
      var rp := if BuscaProfesores(t) then ResultadosProfesores(Filter(profesores, ProfesorCoincideCon(query))) else [];
      var rm := if BuscaMaterias(t) then ResultadosMaterias(Filter(materias, MateriaCoincideCon(query))) else [];
      Busqueda(query, t, rp + rm)
  }

  /** A professor result is there exactly for a listed professor that matches. */
  lemma ResultadosProfesoresSpec(profesores: seq<P.Profesor>, query: string)
    ensures var rp := ResultadosProfesores(Filter(profesores, ProfesorCoincideCon(query)));
      && (forall x :: x in rp ==> x.tipo == DE_PROFESOR)
      && (forall x :: x in rp <==> exists p :: p in profesores && ProfesorCoincide(p, query) && x == ResultadoProfesor(p))
  {
    var fp := Filter(profesores, ProfesorCoincideCon(query));
    var rp := ResultadosProfesores(fp);
    HavingSpec(profesores, ProfesorCoincideCon(query), true);
    forall x | x in rp ensures exists p :: p in profesores && ProfesorCoincide(p, query) && x == ResultadoProfesor(p) {
      var i :| 0 <= i < |rp| && rp[i] == x;
      assert fp[i] in fp;
    }
    forall p | p in profesores && ProfesorCoincide(p, query) ensures ResultadoProfesor(p) in rp {
      assert p in fp;
      var i :| 0 <= i < |fp| && fp[i] == p;
      assert rp[i] == ResultadoProfesor(p);
    }
  }

  /** A course result is there exactly for a listed course that matches. */
  lemma ResultadosMateriasSpec(materias: seq<M.Materia>, query: string)
    ensures var rm := ResultadosMaterias(Filter(materias, MateriaCoincideCon(query)));
      && (forall x :: x in rm ==> x.tipo == DE_MATERIA)
      && (forall x :: x in rm <==> exists m :: m in materias && MateriaCoincide(m, query) && x == ResultadoMateria(m))
  {
    var fm := Filter(materias, MateriaCoincideCon(query));
    var rm := ResultadosMaterias(fm);
    HavingSpec(materias, MateriaCoincideCon(query), true);
    forall x | x in rm ensures exists m :: m in materias && MateriaCoincide(m, query) && x == ResultadoMateria(m) {
      var i :| 0 <= i < |rm| && rm[i] == x;
      assert fm[i] in fm;
    }
    forall m | m in materias && MateriaCoincide(m, query) ensures ResultadoMateria(m) in rm {
      assert m in fm;
      var i :| 0 <= i < |fm| && fm[i] == m;
      assert rm[i] == ResultadoMateria(m);
    }
  }

  /** In a concatenation of professor results and course results, no course result comes first. */
  lemma ProfesoresPrimero(rp: seq<Resultado>, rm: seq<Resultado>)
    requires forall x :: x in rp ==> x.tipo == DE_PROFESOR
    requires forall x :: x in rm ==> x.tipo == DE_MATERIA
    ensures forall i, j :: 0 <= i < j < |rp + rm| ==> !((rp + rm)[i].tipo == DE_MATERIA && (rp + rm)[j].tipo == DE_PROFESOR)
  {
    var res := rp + rm;
    forall i, j | 0 <= i < j < |res| ensures !(res[i].tipo == DE_MATERIA && res[j].tipo == DE_PROFESOR) {
      if i < |rp| {
        assert res[i] in rp;
      } else {
        assert res[j] == rm[j - |rp|];
        assert res[j] in rm;
      }
    }
  }

  /**
   * The search echoes its inputs and finds nothing for a blank query. A
   * professor result is there exactly when the kind asks for professors and
   * a listed professor matches with that result; likewise for courses; and
   * no course result comes before a professor result.
   */
  lemma BuscarSpec(profesores: seq<P.Profesor>, materias: seq<M.Materia>, q: Option<string>, tipo: Option<string>)
    ensures var r := Buscar(profesores, materias, q, tipo);
      && r.query == q.GetOr("")
      && r.tipo == (if tipo.Some? && tipo.value != "" then tipo.value else TODOS)
      && (IsBlank(r.query) ==> r.resultados == [])
      && (forall x :: x in r.resultados ==> x.tipo == DE_PROFESOR || x.tipo == DE_MATERIA)
      && (forall x :: x in r.resultados && x.tipo == DE_PROFESOR <==>
            && !IsBlank(r.query) && BuscaProfesores(r.tipo)
            && exists p :: p in profesores && ProfesorCoincide(p, r.query) && x == ResultadoProfesor(p))
      && (forall x :: x in r.resultados && x.tipo == DE_MATERIA <==>
            && !IsBlank(r.query) && BuscaMaterias(r.tipo)
            && exists m :: m in materias && MateriaCoincide(m, r.query) && x == ResultadoMateria(m))
      && (forall i, j :: 0 <= i < j < |r.resultados| ==>
            !(r.resultados[i].tipo == DE_MATERIA && r.resultados[j].tipo == DE_PROFESOR))
  {
    var query := q.GetOr("");
    var t := TipoBusqueda(tipo);
    if !IsBlank(query) {
      var rp := if BuscaProfesores(t) then ResultadosProfesores(Filter(profesores, ProfesorCoincideCon(query))) else [];
      var rm := if BuscaMaterias(t) then ResultadosMaterias(Filter(materias, MateriaCoincideCon(query))) else [];
      ResultadosProfesoresSpec(profesores, query);
      ResultadosMateriasSpec(materias, query);
      ProfesoresPrimero(rp, rm);
      assert Buscar(profesores, materias, q, tipo).resultados == rp + rm;
    }
  }
}
