/**
 * The read-only side of the schedule: hours counted per course, the global
 * validation of every professor's blocks, and the schedule summary with its
 * per-day and per-type hour distributions.
 */
module HorariosInforme {
  import opened Wrappers
  import opened Seqs
  import opened Intervalos
  import P = Profesores
  import M = Materias

  /** A finding of `validarHorarioCompleto`. */
  datatype Hallazgo =
    | LimiteExcedido(profesor: P.Profesor, totalHoras: int)
    | ConflictoHorario(profesor: P.Profesor, horario1: P.Horario, horario2: P.Horario)

  /** One professor line of the summary; `maxHoras` is the legacy weekly cap, possibly missing. */
  datatype FilaProfesor = FilaProfesor(
    id: string,
    nombre: string,
    especialidad: string,
    horasAsignadas: int,
    maxHoras: Option<int>,
    disponible: int)

  /** One course line of the summary. */
  datatype FilaMateria = FilaMateria(
    id: string,
    codigo: string,
    nombre: string,
    semestre: int,
    horasNecesarias: int,
    horasAsignadas: int,
    completado: bool)

  datatype ResumenHorario = ResumenHorario(
    profesores: seq<FilaProfesor>,
    materias: seq<FilaMateria>,
    totalHoras: int,
    distribucionPorDia: seq<(string, int)>,
    distribucionPorTipo: seq<(string, int)>)

  function MateriaId(h: P.Horario): string { h.materiaId }

  function Tipo(h: P.Horario): string { h.tipo }

  /** Every block of every record, in store order. */
  function Bloques(store: seq<P.Profesor>): seq<P.Horario> {
    if store == [] then [] else store[0].horarios + Bloques(store[1..])
  }

  // ---------------------------------------------------------------- hours per course

  /** `contarHorasPorMateria`: the hours of every block of every record that belongs to the course. */
  function ContarHorasPorMateria(store: seq<P.Profesor>, materiaId: string): int {
    if store == [] then 0
    else P.TotalHoras(Having(store[0].horarios, MateriaId, materiaId)) + ContarHorasPorMateria(store[1..], materiaId)
  }

  /** The count is the hours of the course's blocks among all blocks. */
  lemma {:induction false} ContarHorasSpec(store: seq<P.Profesor>, materiaId: string)
    ensures ContarHorasPorMateria(store, materiaId) == P.TotalHoras(Having(Bloques(store), MateriaId, materiaId))
  {
    if store != [] {
      ContarHorasSpec(store[1..], materiaId);
      HavingConcat(store[0].horarios, Bloques(store[1..]), MateriaId, materiaId);
      SumOfConcat(Having(store[0].horarios, MateriaId, materiaId),
                  Having(Bloques(store[1..]), MateriaId, materiaId), P.Duracion);
    }
  }

  /** Rewriting one record changes the count by that record's change. */
  lemma {:induction false} ContarReemplazo(store: seq<P.Profesor>, i: nat, p: P.Profesor, materiaId: string)
    requires i < |store|
    ensures ContarHorasPorMateria(store[i := p], materiaId)
         == ContarHorasPorMateria(store, materiaId)
            - P.TotalHoras(Having(store[i].horarios, MateriaId, materiaId))
            + P.TotalHoras(Having(p.horarios, MateriaId, materiaId))
  {
    if i > 0 {
      assert store[i := p][1..] == store[1..][i - 1 := p];
      ContarReemplazo(store[1..], i - 1, p, materiaId);
    } else {
      assert store[i := p][1..] == store[1..];
    }
  }

  /** Recording a block adds its hours to its own course's count and to no other. */
  lemma ContarTrasAddHorario(store: seq<P.Profesor>, profesorId: string, datos: P.DatosHorario, id: string,
                             ahora: string, materiaId: string)
    ensures var r := P.AddHorario(store, profesorId, datos, id, ahora);
      r.Ok? ==>
        ContarHorasPorMateria(r.value.0, materiaId)
        == ContarHorasPorMateria(store, materiaId)
           + (if datos.materiaId == materiaId then datos.horaFin - datos.horaInicio else 0)
  {
    var r := P.AddHorario(store, profesorId, datos, id, ahora);
    if r.Ok? {
      var i := P.Buscar(store, profesorId).value;
      var hs := store[i].horarios;
      var h := r.value.1;
      ContarReemplazo(store, i, r.value.0[i], materiaId);
      assert r.value.0 == store[i := r.value.0[i]];
      HavingConcat(hs, [h], MateriaId, materiaId);
      SumOfConcat(Having(hs, MateriaId, materiaId), Having([h], MateriaId, materiaId), P.Duracion);
    }
  }

  // ---------------------------------------------------------------- global validation

  /** The load `getCargaHoraria` reports for an id: the total of the first record holding it. */
  function TotalRegistrado(store: seq<P.Profesor>, id: string): int {
    match P.Buscar(store, id)
    case None => 0
    case Some(i) => P.TotalHoras(store[i].horarios)
  }

  /** `totalHoras > maxHorasSemana`; a missing cap compares false. */
  predicate Excede(total: int, max: Option<int>) {
    max.Some? && total > max.value
  }

  /** Two same-day blocks overlap under the half-open test. */
  predicate Choque(a: P.Horario, b: P.Horario) {
    a.dia == b.dia && Solapa(a.horaInicio, a.horaFin, b.horaInicio, b.horaFin)
  }

  /** The conflicts of `h` with each later block, in order. */
  function ParesCon(h: P.Horario, resto: seq<P.Horario>): (r: seq<(P.Horario, P.Horario)>)
    ensures forall k :: 0 <= k < |r| ==> r[k].0 == h && r[k].1 in resto && Choque(h, r[k].1)
    ensures forall j :: 0 <= j < |resto| && Choque(h, resto[j]) ==> (h, resto[j]) in r
  {
    if resto == [] then []
    else (if Choque(h, resto[0]) then [(h, resto[0])] else []) + ParesCon(h, resto[1..])
  }

  /** The nested `i < j` loop: every overlapping same-day pair, in `(i, j)` order. */
  function Pares(hs: seq<P.Horario>): (r: seq<(P.Horario, P.Horario)>)
    ensures forall k :: 0 <= k < |r| ==> r[k].0 in hs && r[k].1 in hs && Choque(r[k].0, r[k].1)
  {
    if hs == [] then []
    else ParesCon(hs[0], hs[1..]) + Pares(hs[1..])
  }

  /** Every overlapping pair `i < j` is reported. */
  lemma {:induction false} ParesCompletos(hs: seq<P.Horario>)
    ensures forall i, j :: 0 <= i < j < |hs| && Choque(hs[i], hs[j]) ==> (hs[i], hs[j]) in Pares(hs)
  {
    if hs != [] {
      ParesCompletos(hs[1..]);
      forall i, j | 0 <= i < j < |hs| && Choque(hs[i], hs[j]) ensures (hs[i], hs[j]) in Pares(hs) {
        if i == 0 {
          assert hs[j] == hs[1..][j - 1];
        } else {
          assert hs[i] == hs[1..][i - 1] && hs[j] == hs[1..][j - 1];
        }
      }
    }
  }

  /** No pair is reported exactly when no two same-day blocks overlap. */
  lemma {:induction false} ParesVacios(hs: seq<P.Horario>)
    ensures Pares(hs) == [] <==> P.SinSolapes(hs)
  {
    ParesCompletos(hs);
    if hs != [] {
      ParesVacios(hs[1..]);
      if P.SinSolapes(hs) {
        assert P.SinSolapes(hs[1..]) by {
          forall i, j | 0 <= i < j < |hs[1..]| ensures hs[1..][i] == hs[i + 1] && hs[1..][j] == hs[j + 1] {
          }
        }
        forall j | 0 <= j < |hs[1..]| ensures !Choque(hs[0], hs[1..][j]) {
          assert hs[1..][j] == hs[j + 1];
        }
        ParesConSinChoque(hs[0], hs[1..]);
      } else {
        var i, j :| 0 <= i < j < |hs| && hs[i].dia == hs[j].dia
          && Solapa(hs[i].horaInicio, hs[i].horaFin, hs[j].horaInicio, hs[j].horaFin);
        assert (hs[i], hs[j]) in Pares(hs);
      }
    }
  }

  /** A block that clashes with none of the later ones yields no pair. */
  lemma {:induction false} ParesConSinChoque(h: P.Horario, resto: seq<P.Horario>)
    requires forall j :: 0 <= j < |resto| ==> !Choque(h, resto[j])
    ensures ParesCon(h, resto) == []
  {
    if resto != [] {
      ParesConSinChoque(h, resto[1..]);
    }
  }

  /** One professor's findings: the cap first, then each overlapping pair of their own blocks. */
  function Hallazgos(store: seq<P.Profesor>, p: P.Profesor): seq<Hallazgo> {
    var total := TotalRegistrado(store, p.id);
    (if Excede(total, p.maxHorasSemana) then [LimiteExcedido(p, total)] else [])
    + ComoHallazgos(p, Pares(p.horarios))
  }

  function ComoHallazgos(p: P.Profesor, pares: seq<(P.Horario, P.Horario)>): (r: seq<Hallazgo>)
    ensures |r| == |pares|
    ensures forall k :: 0 <= k < |r| ==> r[k] == ConflictoHorario(p, pares[k].0, pares[k].1)
  {
    if pares == [] then [] else [ConflictoHorario(p, pares[0].0, pares[0].1)] + ComoHallazgos(p, pares[1..])
  }

  function ValidarDesde(store: seq<P.Profesor>, ps: seq<P.Profesor>): seq<Hallazgo> {
    if ps == [] then [] else Hallazgos(store, ps[0]) + ValidarDesde(store, ps[1..])
  }

  /** `validarHorarioCompleto`: every record's findings, in store order. */
  function ValidarHorarioCompleto(store: seq<P.Profesor>): seq<Hallazgo> {
    ValidarDesde(store, store)
  }

  /** A finding is justified by the store: an excess is the record's real load over its cap, a conflict two of its own blocks that overlap. */
  predicate Justificado(store: seq<P.Profesor>, x: Hallazgo) {
    && (x.LimiteExcedido? ==> x.totalHoras == TotalRegistrado(store, x.profesor.id)
                              && Excede(x.totalHoras, x.profesor.maxHorasSemana))
    && (x.ConflictoHorario? ==> x.horario1 in x.profesor.horarios && x.horario2 in x.profesor.horarios
                                && Choque(x.horario1, x.horario2))
  }

  /** One professor's findings are about that professor and justified. */
  lemma HallazgosCorrectos(store: seq<P.Profesor>, p: P.Profesor)
    ensures forall x :: x in Hallazgos(store, p) ==> x.profesor == p && Justificado(store, x)
  {
  }

  /** One professor's findings include their excess, if any, and every overlapping pair of their blocks. */
  lemma HallazgosCompletos(store: seq<P.Profesor>, p: P.Profesor)
    ensures Excede(TotalRegistrado(store, p.id), p.maxHorasSemana) ==>
      LimiteExcedido(p, TotalRegistrado(store, p.id)) in Hallazgos(store, p)
    ensures forall i, j :: 0 <= i < j < |p.horarios| && Choque(p.horarios[i], p.horarios[j]) ==>
      ConflictoHorario(p, p.horarios[i], p.horarios[j]) in Hallazgos(store, p)
  {
    var pares := Pares(p.horarios);
    var cs := ComoHallazgos(p, pares);
    ParesCompletos(p.horarios);
    forall i, j | 0 <= i < j < |p.horarios| && Choque(p.horarios[i], p.horarios[j])
      ensures ConflictoHorario(p, p.horarios[i], p.horarios[j]) in cs
    {
      var m :| 0 <= m < |pares| && pares[m] == (p.horarios[i], p.horarios[j]);
      assert cs[m] == ConflictoHorario(p, p.horarios[i], p.horarios[j]);
    }
  }

  /** The run over `ps` holds every finding of every listed professor. */
  lemma {:induction false} ValidarDesdeIncluye(store: seq<P.Profesor>, ps: seq<P.Profesor>, k: nat)
    requires k < |ps|
    ensures forall x :: x in Hallazgos(store, ps[k]) ==> x in ValidarDesde(store, ps)
  {
    if k > 0 {
      ValidarDesdeIncluye(store, ps[1..], k - 1);
    }
  }

  /** Every finding is about a listed record and is justified. */
  lemma {:induction false} ValidarCorrecto(store: seq<P.Profesor>, ps: seq<P.Profesor>)
    ensures forall k :: 0 <= k < |ValidarDesde(store, ps)| ==>
      ValidarDesde(store, ps)[k].profesor in ps && Justificado(store, ValidarDesde(store, ps)[k])
  {
    if ps != [] {
      ValidarCorrecto(store, ps[1..]);
      var h: seq<Hallazgo> := Hallazgos(store, ps[0]);
      var r: seq<Hallazgo> := ValidarDesde(store, ps[1..]);
      HallazgosCorrectos(store, ps[0]);
      forall k | 0 <= k < |h + r| ensures (h + r)[k].profesor in ps && Justificado(store, (h + r)[k]) {
        if k < |h| {
          assert (h + r)[k] == h[k] && h[k] in h;
        } else {
          assert (h + r)[k] == r[k - |h|];
          assert r[k - |h|].profesor in ps[1..];
        }
      }
    }
  }

  /** Every over-cap record and every overlapping pair of a record's blocks is reported. */
  lemma ValidarCompleto(store: seq<P.Profesor>, ps: seq<P.Profesor>)
    ensures forall k :: 0 <= k < |ps| && Excede(TotalRegistrado(store, ps[k].id), ps[k].maxHorasSemana) ==>
      LimiteExcedido(ps[k], TotalRegistrado(store, ps[k].id)) in ValidarDesde(store, ps)
    ensures forall k, i, j :: 0 <= k < |ps| && 0 <= i < j < |ps[k].horarios|
                              && Choque(ps[k].horarios[i], ps[k].horarios[j]) ==>
      ConflictoHorario(ps[k], ps[k].horarios[i], ps[k].horarios[j]) in ValidarDesde(store, ps)
  {
    forall k | 0 <= k < |ps|
      ensures Excede(TotalRegistrado(store, ps[k].id), ps[k].maxHorasSemana) ==>
        LimiteExcedido(ps[k], TotalRegistrado(store, ps[k].id)) in ValidarDesde(store, ps)
      ensures forall i, j :: 0 <= i < j < |ps[k].horarios| && Choque(ps[k].horarios[i], ps[k].horarios[j]) ==>
        ConflictoHorario(ps[k], ps[k].horarios[i], ps[k].horarios[j]) in ValidarDesde(store, ps)
    {
      HallazgosCompletos(store, ps[k]);
      ValidarDesdeIncluye(store, ps, k);
    }
  }

  /** No finding of the list is an overlap. */
  predicate SinConflictos(xs: seq<Hallazgo>) {
    forall k :: 0 <= k < |xs| ==> !xs[k].ConflictoHorario?
  }

  lemma SinConflictosConcat(a: seq<Hallazgo>, b: seq<Hallazgo>)
    ensures SinConflictos(a + b) <==> SinConflictos(a) && SinConflictos(b)
  {
    assert forall k :: 0 <= k < |a| ==> (a + b)[k] == a[k];
    assert forall k :: 0 <= k < |b| ==> (a + b)[|a| + k] == b[k];
  }

  /** A professor's own findings hold no overlap exactly when their blocks are conflict-free. */
  lemma HallazgosSinSolapes(store: seq<P.Profesor>, p: P.Profesor)
    ensures SinConflictos(Hallazgos(store, p)) <==> P.SinSolapes(p.horarios)
  {
    ParesVacios(p.horarios);
    var total := TotalRegistrado(store, p.id);
    var lim: seq<Hallazgo> := if Excede(total, p.maxHorasSemana) then [LimiteExcedido(p, total)] else [];
    var cs := ComoHallazgos(p, Pares(p.horarios));
    SinConflictosConcat(lim, cs);
    if cs != [] {
      assert cs[0].ConflictoHorario?;
    }
  }

  /** The validation reports no overlap exactly when every record's blocks are conflict-free. */
  lemma {:induction false} ValidarSinSolapes(store: seq<P.Profesor>, ps: seq<P.Profesor>)
    ensures SinConflictos(ValidarDesde(store, ps)) <==> forall k :: 0 <= k < |ps| ==> P.SinSolapes(ps[k].horarios)
  {
    if ps != [] {
      ValidarSinSolapes(store, ps[1..]);
      HallazgosSinSolapes(store, ps[0]);
      SinConflictosConcat(Hallazgos(store, ps[0]), ValidarDesde(store, ps[1..]));
      assert forall k :: 0 < k < |ps| ==> ps[k] == ps[1..][k - 1];
    }
  }

  // ---------------------------------------------------------------- summary

  const TIPOS_INICIALES: seq<(string, int)> := [("teoria", 0), ("practica", 0), ("laboratorio", 0)]

  function FilaDeProfesor(store: seq<P.Profesor>, p: P.Profesor): FilaProfesor {
    var total := TotalRegistrado(store, p.id);
    var cap := match P.Buscar(store, p.id) case None => 0 case Some(i) => P.Cap(store[i]);
    FilaProfesor(p.id, p.nombre + " " + p.apellido, p.especialidad, total, p.maxHorasSemana, cap - total)
  }

  function FilasProfesores(store: seq<P.Profesor>, ps: seq<P.Profesor>): (r: seq<FilaProfesor>)
    ensures |r| == |ps|
    ensures forall k :: 0 <= k < |ps| ==> r[k] == FilaDeProfesor(store, ps[k])
  {
    if ps == [] then [] else [FilaDeProfesor(store, ps[0])] + FilasProfesores(store, ps[1..])
  }

  function HorasAsignadas(f: FilaProfesor): int { f.horasAsignadas }

  function FilaDeMateria(store: seq<P.Profesor>, m: M.Materia): FilaMateria {
    var necesarias := M.HorasSemana(m);
    var asignadas := ContarHorasPorMateria(store, m.id);
    FilaMateria(m.id, m.codigo, m.nombre, m.semestre, necesarias, asignadas, asignadas >= necesarias)
  }

  function FilasMaterias(store: seq<P.Profesor>, ms: seq<M.Materia>): (r: seq<FilaMateria>)
    ensures |r| == |ms|
    ensures forall k :: 0 <= k < |ms| ==> r[k] == FilaDeMateria(store, ms[k])
  {
    if ms == [] then [] else [FilaDeMateria(store, ms[0])] + FilasMaterias(store, ms[1..])
  }

  /**
   * `generarResumenHorario`: one line per professor and per course, the
   * total of the professors' loads, and the hours of all blocks by day and
   * by type (the type table starts with `teoria`, `practica`, `laboratorio`
   * at 0).
   */
  function GenerarResumenHorario(store: seq<P.Profesor>, materias: seq<M.Materia>): (r: ResumenHorario)
    ensures |r.profesores| == |store| && |r.materias| == |materias|
    ensures forall k :: 0 <= k < |store| ==>
      && r.profesores[k].id == store[k].id
      && r.profesores[k].nombre == store[k].nombre + " " + store[k].apellido
      && r.profesores[k].especialidad == store[k].especialidad
      && r.profesores[k].maxHoras == store[k].maxHorasSemana
      && r.profesores[k].horasAsignadas == TotalRegistrado(store, store[k].id)
    ensures forall k :: 0 <= k < |materias| ==>
      && r.materias[k].id == materias[k].id
      && r.materias[k].horasNecesarias == M.HorasSemana(materias[k])
      && (r.materias[k].completado <==> r.materias[k].horasAsignadas >= r.materias[k].horasNecesarias)
    ensures r.totalHoras == SumOf(r.profesores, HorasAsignadas)
  {
    var profesores := FilasProfesores(store, store);
    assert P.ClavesUnicas(TIPOS_INICIALES);
    ResumenHorario(
      profesores,
      FilasMaterias(store, materias),
      SumOf(profesores, HorasAsignadas),
      P.Tabular([], Bloques(store), P.Dia),
      P.Tabular(TIPOS_INICIALES, Bloques(store), Tipo))
  }

  /** A table of zeros holds 0 for every key. */
  lemma {:induction false} ValorCeros(t: seq<(string, int)>, x: string)
    requires forall i :: 0 <= i < |t| ==> t[i].1 == 0
    ensures P.Valor(t, x) == 0
  {
    if t != [] {
      ValorCeros(t[1..], x);
    }
  }

  /** Each course line counts the hours of that course's blocks across all records. */
  lemma ResumenMaterias(store: seq<P.Profesor>, materias: seq<M.Materia>, k: nat)
    requires k < |materias|
    ensures GenerarResumenHorario(store, materias).materias[k].horasAsignadas
         == P.TotalHoras(Having(Bloques(store), MateriaId, materias[k].id))
  {
    ContarHorasSpec(store, materias[k].id);
  }

  /** The per-day distribution holds, for every day some block uses and only for those, the hours of that day's blocks. */
  lemma ResumenPorDia(store: seq<P.Profesor>, materias: seq<M.Materia>)
    ensures var t := GenerarResumenHorario(store, materias).distribucionPorDia;
      && (forall d :: P.Valor(t, d) == P.TotalHoras(Having(Bloques(store), P.Dia, d)))
      && P.ClavesTabla(t) == P.ClavesDe(Bloques(store), P.Dia)
  {
    P.TabularValor([], Bloques(store), P.Dia);
    P.TabularClaves([], Bloques(store), P.Dia);
  }

  /** The per-type distribution lists the three class types plus any other type in use, each with its blocks' hours. */
  lemma ResumenPorTipo(store: seq<P.Profesor>, materias: seq<M.Materia>)
    ensures var t := GenerarResumenHorario(store, materias).distribucionPorTipo;
      && (forall x :: P.Valor(t, x) == P.TotalHoras(Having(Bloques(store), Tipo, x)))
      && P.ClavesTabla(t) == {"teoria", "practica", "laboratorio"} + P.ClavesDe(Bloques(store), Tipo)
  {
    TablaTipos(Bloques(store));
  }

  /** The per-type table over any blocks: their hours per type, and the three usual types always listed. */
  lemma TablaTipos(hs: seq<P.Horario>)
    ensures var t := P.Tabular(TIPOS_INICIALES, hs, Tipo);
      && (forall x :: P.Valor(t, x) == P.TotalHoras(Having(hs, Tipo, x)))
      && P.ClavesTabla(t) == {"teoria", "practica", "laboratorio"} + P.ClavesDe(hs, Tipo)
  {
    assert P.ClavesUnicas(TIPOS_INICIALES);
    P.TabularValor(TIPOS_INICIALES, hs, Tipo);
    forall x ensures P.Valor(TIPOS_INICIALES, x) == 0 {
      ValorCeros(TIPOS_INICIALES, x);
    }
    P.TabularClaves(TIPOS_INICIALES, hs, Tipo);
  }

  /**
   * With distinct ids, the summary's total load equals the hours in the
   * per-day distribution and in the per-type distribution: all three count
   * every block once.
   */
  lemma ResumenTotales(store: seq<P.Profesor>, materias: seq<M.Materia>)
    requires P.IdsUnicos(store)
    ensures var r := GenerarResumenHorario(store, materias);
      && r.totalHoras == P.TotalHoras(Bloques(store))
      && P.SumaValores(r.distribucionPorDia) == r.totalHoras
      && P.SumaValores(r.distribucionPorTipo) == r.totalHoras
  {
    var bloques := Bloques(store);
    assert P.ClavesUnicas(TIPOS_INICIALES);
    P.TabularValor([], bloques, P.Dia);
    P.TabularValor(TIPOS_INICIALES, bloques, Tipo);
    TotalesPorRegistro(store, 0);
  }

  /**
   * With distinct ids, each professor line reports that record's own load:
   * the hours of its blocks, and what is left of its class-hours cap
   * (`maxHorasClase || maxHorasSemana || 20`).
   */
  lemma ResumenProfesores(store: seq<P.Profesor>, materias: seq<M.Materia>, k: nat)
    requires P.IdsUnicos(store) && k < |store|
    ensures var f := GenerarResumenHorario(store, materias).profesores[k];
      && f.horasAsignadas == P.TotalHoras(store[k].horarios)
      && f.disponible == P.Cap(store[k]) - P.TotalHoras(store[k].horarios)
  {
    PrimeroEsUnico(store, k);
  }

  /** Summing each record's reported load over `store[k..]` gives the hours of their blocks. */
  lemma {:induction false} TotalesPorRegistro(store: seq<P.Profesor>, k: nat)
    requires P.IdsUnicos(store) && k <= |store|
    ensures SumOf(FilasProfesores(store, store[k..]), HorasAsignadas) == P.TotalHoras(Bloques(store[k..]))
    decreases |store| - k
  {
    if k < |store| {
      TotalesPorRegistro(store, k + 1);
      assert store[k..][1..] == store[k + 1..];
      PrimeroEsUnico(store, k);
      SumOfConcat(store[k].horarios, Bloques(store[k + 1..]), P.Duracion);
    }
  }

  /** With distinct ids, looking up a record's id finds that record. */
  lemma PrimeroEsUnico(store: seq<P.Profesor>, k: nat)
    requires P.IdsUnicos(store) && k < |store|
    ensures P.Buscar(store, store[k].id) == Some(k)
  {
    assert P.Id(store[k]) == store[k].id;
  }
}
