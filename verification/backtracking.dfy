/**
 * Depth-first assignment of every course to one (professor, slot) pair.
 *
 * Courses are taken in non-increasing semester order; for each one the
 * eligible professors are tried in list order and, for each professor, the
 * available slots in list order. A candidate accepted by `EsValido` is
 * recorded in the professor's list and in the occupancy map, the search
 * recurses on the next course, and on failure both records are undone
 * before the next candidate is tried. The first complete assignment wins.
 */
module Backtracking {
  import opened Wrappers
  import opened Seqs
  import opened Sorting
  import opened Intervalos

  const SABADO: string := "Sábado"
  const DOMINGO: string := "Domingo"

  /** A candidate slot `{ dia, horaInicio, horaFin }`; also the shape of an availability window. */
  datatype Slot = Slot(dia: string, horaInicio: int, horaFin: int)

  /** The professor fields the search reads. `disponibilidad` is absent when not declared. */
  datatype Profesor = Profesor(
    id: string,
    nombre: string,
    maxHorasClase: int,
    materias: seq<string>,
    disponibilidad: Option<seq<Slot>>)

  datatype Materia = Materia(nombre: string, codigo: string, semestre: int)

  datatype Opciones = Opciones(avoidWeekends: bool)

  /** One entry of a professor's assignment list. */
  datatype Entrada = Entrada(materia: string, codigo: string, dia: string, horaInicio: int, horaFin: int)

  /**
   * The search state: each professor id's assignment list, and the occupancy
   * index from slot to the id holding it. A slot missing from `ocupados` holds
   * null, which is how every slot starts and what undoing writes back.
   */
  datatype Estado = Estado(asignaciones: map<string, seq<Entrada>>, ocupados: map<Slot, string>)

  /** A problem instance with its courses already in search order. */
  datatype Problema = Problema(
    profesores: seq<Profesor>,
    materias: seq<Materia>,
    horarios: seq<Slot>,
    opciones: Opciones)

  /** The value `asignarHorariosBacktracking` returns. */
  datatype Salida = Salida(exito: bool, asignaciones: map<string, seq<Entrada>>, resumen: seq<Linea>)

  /** One line of the printable summary; the text formatting of each line is not modelled. */
  datatype Linea = Cabecera(nombre: string, id: string) | SinAsignaciones | Asignada(entrada: Entrada) | Separador

  // ---------------------------------------------------------------- course order

  function Semestre(m: Materia): int { m.semestre }

  /** The sort key of `(a, b) => b.semestre - a.semestre`: descending semester. */
  function SemestreDesc(m: Materia): Key { (-m.semestre, 0) }

  function OrdenarMaterias(ms: seq<Materia>): seq<Materia> {
    SortBy(ms, SemestreDesc)
  }

  /** The courses are attempted in non-increasing semester order, a permutation of the input. */
  lemma OrdenarMateriasSpec(ms: seq<Materia>)
    ensures var r := OrdenarMaterias(ms);
      && multiset(r) == multiset(ms)
      && forall i, j :: 0 <= i < j < |r| ==> r[i].semestre >= r[j].semestre
  {
    var r := OrdenarMaterias(ms);
    forall i, j | 0 <= i < j < |r| ensures r[i].semestre >= r[j].semestre {
      assert KeyLe(SemestreDesc(r[i]), SemestreDesc(r[j]));
    }
  }

  /** Courses of equal semester keep their input order. */
  lemma {:induction false} OrdenarMateriasStable(ms: seq<Materia>, v: int)
    ensures Having(OrdenarMaterias(ms), Semestre, v) == Having(ms, Semestre, v)
  {
    var r := OrdenarMaterias(ms);
    SortStable(ms, SemestreDesc, (-v, 0));
    SemestreSelection(r, v);
    SemestreSelection(ms, v);
  }

  lemma SemestreSelection(ms: seq<Materia>, v: int)
    ensures Having(ms, Semestre, v) == Having(ms, SemestreDesc, (-v, 0))
  {
    forall i | 0 <= i < |ms| ensures Semestre(ms[i]) == v <==> SemestreDesc(ms[i]) == (-v, 0) {
    }
    HavingSameSelection(ms, Semestre, v, SemestreDesc, (-v, 0));
  }

  // ---------------------------------------------------------------- the validator

  function Lista(st: Estado, id: string): seq<Entrada> {
    if id in st.asignaciones then st.asignaciones[id] else []
  }

  function Dia(e: Entrada): string { e.dia }

  function Duracion(e: Entrada): int { e.horaFin - e.horaInicio }

  function SlotDe(e: Entrada): Slot { Slot(e.dia, e.horaInicio, e.horaFin) }

  /** Number of entries of `l` on day `d`. */
  function ClasesDia(l: seq<Entrada>, d: string): nat { CountHaving(l, Dia, d) }

  /** Hours of `l`: the sum of `horaFin - horaInicio`. */
  function Horas(l: seq<Entrada>): int { SumOf(l, Duracion) }

  /** The lunch-window rule: the slot starts before 13 and ends after 12. */
  predicate EnAlmuerzo(s: Slot) { s.horaInicio < 13 && s.horaFin > 12 }

  predicate EsFinDeSemana(dia: string) { dia == SABADO || dia == DOMINGO }

  /** The occupancy lookup is a truthiness test on the stored id. */
  predicate Ocupado(ocupados: map<Slot, string>, s: Slot) {
    s in ocupados && ocupados[s] != ""
  }

  /** `s` lies inside the availability window `w` on the same day. */
  predicate Cubre(w: Slot, s: Slot) {
    w.dia == s.dia && w.horaInicio <= s.horaInicio && w.horaFin >= s.horaFin
  }

  predicate DentroDeDisponibilidad(p: Profesor, s: Slot) {
    p.disponibilidad.Some? ==> exists w | w in p.disponibilidad.value :: Cubre(w, s)
  }

  /** Some entry of `l` overlaps `s` on the same day. */
  predicate ChocaCon(l: seq<Entrada>, s: Slot) {
    exists a | a in l :: a.dia == s.dia && Solapa(s.horaInicio, s.horaFin, a.horaInicio, a.horaFin)
  }

  /** `esValido(profesor, materia, horario)`, its eight checks in source order. */
  function EsValido(pb: Problema, p: Profesor, m: Materia, s: Slot, st: Estado): (ok: bool)
    ensures ok <==>
      && m.codigo in p.materias
      && ClasesDia(Lista(st, p.id), s.dia) < 2
      && !EnAlmuerzo(s)
      && !ChocaCon(Lista(st, p.id), s)
      && Horas(Lista(st, p.id)) + (s.horaFin - s.horaInicio) <= p.maxHorasClase
      && !Ocupado(st.ocupados, s)
      && DentroDeDisponibilidad(p, s)
      && !(pb.opciones.avoidWeekends && EsFinDeSemana(s.dia))
  {
    var lista := Lista(st, p.id);
    if m.codigo !in p.materias then false
    else if ClasesDia(lista, s.dia) >= 2 then false
    else if EnAlmuerzo(s) then false
    else if ChocaCon(lista, s) then false
    else if Horas(lista) + (s.horaFin - s.horaInicio) > p.maxHorasClase then false
    else if Ocupado(st.ocupados, s) then false
    else if !DentroDeDisponibilidad(p, s) then false
    else if pb.opciones.avoidWeekends && EsFinDeSemana(s.dia) then false
    else true
  }

  // ---------------------------------------------------------------- assign and undo

  function NuevaEntrada(m: Materia, s: Slot): Entrada {
    Entrada(m.nombre, m.codigo, s.dia, s.horaInicio, s.horaFin)
  }

  /** Push the entry on the professor's list and mark the slot with the professor's id. */
  function Asignar(st: Estado, p: Profesor, m: Materia, s: Slot): Estado {
    Estado(
      st.asignaciones[p.id := Lista(st, p.id) + [NuevaEntrada(m, s)]],
      st.ocupados[s := p.id])
  }

  /** Pop the professor's list (a no-op on an empty list) and write null back to the slot. */
  function Deshacer(st: Estado, p: Profesor, s: Slot): Estado {
    var l := Lista(st, p.id);
    Estado(
      st.asignaciones[p.id := if l == [] then [] else l[..|l| - 1]],
      st.ocupados - {s})
  }

  /** Undoing an assignment made on a free slot restores the state exactly. */
  lemma DeshacerAsignar(st: Estado, p: Profesor, m: Materia, s: Slot)
    requires p.id in st.asignaciones
    requires s !in st.ocupados
    ensures Deshacer(Asignar(st, p, m, s), p, s) == st
  {
    var st1 := Asignar(st, p, m, s);
    var l := Lista(st, p.id);
    assert Lista(st1, p.id) == l + [NuevaEntrada(m, s)];
    assert (l + [NuevaEntrada(m, s)])[..|l|] == l;
    assert st.asignaciones[p.id := l] == st.asignaciones;
    assert st1.ocupados - {s} == st.ocupados;
  }

  // ---------------------------------------------------------------- the search

  /**
   * The (professor, slot) pairs tried for a course, in loop order: the
   * professors teaching the course in list order, each with every slot.
   */
  function Candidatos(profs: seq<Profesor>, horarios: seq<Slot>, codigo: string): (cs: seq<(Profesor, Slot)>)
    ensures forall c :: c in cs <==> c.0 in profs && codigo in c.0.materias && c.1 in horarios
  {
    if profs == [] then []
    else
      var propios := if codigo in profs[0].materias
        then seq(|horarios|, i requires 0 <= i < |horarios| => (profs[0], horarios[i]))
        else [];
      var resto := Candidatos(profs[1..], horarios, codigo);
      assert forall c: (Profesor, Slot) :: c in propios <==> c.0 == profs[0] && codigo in c.0.materias && c.1 in horarios by {
        forall c: (Profesor, Slot) | c.0 == profs[0] && codigo in c.0.materias && c.1 in horarios ensures c in propios {
          var i :| 0 <= i < |horarios| && horarios[i] == c.1;
          assert propios[i] == c;
        }
      }
      assert forall q :: q in profs <==> q == profs[0] || q in profs[1..] by {
        assert profs == [profs[0]] + profs[1..];
      }
      propios + resto
  }

  /** `backtrack(idx)`: assign courses `idx..` on top of `st`. */
  function Backtrack(pb: Problema, idx: nat, st: Estado): (bool, Estado)
    requires idx <= |pb.materias|
    decreases |pb.materias| - idx, 1, 0
  {
    if idx == |pb.materias| then (true, st)
    else Intentar(pb, idx, Candidatos(pb.profesores, pb.horarios, pb.materias[idx].codigo), st)
  }

  /** The candidate loop of `backtrack(idx)` from candidate `cs[0]` on. */
  function Intentar(pb: Problema, idx: nat, cs: seq<(Profesor, Slot)>, st: Estado): (bool, Estado)
    requires idx < |pb.materias|
    decreases |pb.materias| - idx, 0, |cs|
  {
    if cs == [] then (false, st)
    else
      var m := pb.materias[idx];
      var p := cs[0].0;
      var s := cs[0].1;
      if EsValido(pb, p, m, s, st) then
        var sub := Backtrack(pb, idx + 1, Asignar(st, p, m, s));
        if sub.0 then (true, sub.1)
        else Intentar(pb, idx, cs[1..], Deshacer(sub.1, p, s))
      else Intentar(pb, idx, cs[1..], st)
  }

  // ---------------------------------------------------------------- invariants

  function Ids(profs: seq<Profesor>): set<string> {
    set p | p in profs :: p.id
  }

  /** Professor ids are distinct and truthy (the occupancy test relies on the latter). */
  predicate IdsValidos(profs: seq<Profesor>) {
    && (forall i :: 0 <= i < |profs| ==> profs[i].id != "")
    && (forall i, j :: 0 <= i < j < |profs| ==> profs[i].id != profs[j].id)
  }

  /** `l` holds an entry for slot `s`. */
  ghost predicate TieneSlot(l: seq<Entrada>, s: Slot) {
    exists i :: 0 <= i < |l| && SlotDe(l[i]) == s
  }

  /**
   * The occupancy index and the lists agree: every occupied slot is in its
   * holder's list, and every listed entry's slot is held by that list's owner.
   */
  ghost predicate Sincronizado(pb: Problema, st: Estado) {
    && st.asignaciones.Keys == Ids(pb.profesores)
    && (forall s :: s in st.ocupados ==>
          st.ocupados[s] in st.asignaciones && TieneSlot(st.asignaciones[st.ocupados[s]], s))
    && (forall id, i :: id in st.asignaciones && 0 <= i < |st.asignaciones[id]| ==>
          SlotDe(st.asignaciones[id][i]) in st.ocupados
          && st.ocupados[SlotDe(st.asignaciones[id][i])] == id)
  }

  /** The hard rules hold of every entry of professor `p`'s list `l`. */
  ghost predicate ListaValida(pb: Problema, p: Profesor, l: seq<Entrada>) {
    && (forall d :: ClasesDia(l, d) <= 2)
    && (forall i, j :: 0 <= i < j < |l| && l[i].dia == l[j].dia ==>
          !Solapa(l[j].horaInicio, l[j].horaFin, l[i].horaInicio, l[i].horaFin))
    && (l != [] ==> Horas(l) <= p.maxHorasClase)
    && (forall i :: 0 <= i < |l| ==>
          && l[i].codigo in p.materias
          && SlotDe(l[i]) in pb.horarios
          && !EnAlmuerzo(SlotDe(l[i]))
          && DentroDeDisponibilidad(p, SlotDe(l[i]))
          && !(pb.opciones.avoidWeekends && EsFinDeSemana(l[i].dia)))
  }

  ghost predicate Inv(pb: Problema, st: Estado) {
    && Sincronizado(pb, st)
    && forall p :: p in pb.profesores ==> ListaValida(pb, p, Lista(st, p.id))
  }

  function EstadoInicial(profs: seq<Profesor>): Estado {
    Estado(map id | id in Ids(profs) :: [], map[])
  }

  lemma InvInicial(pb: Problema)
    ensures Inv(pb, EstadoInicial(pb.profesores))
  {
    var st := EstadoInicial(pb.profesores);
    forall p | p in pb.profesores ensures ListaValida(pb, p, Lista(st, p.id)) {
      assert Lista(st, p.id) == [];
    }
  }

  lemma SameId(profs: seq<Profesor>, p: Profesor, q: Profesor)
    requires IdsValidos(profs) && p in profs && q in profs && p.id == q.id
    ensures p == q
  {
    var i :| 0 <= i < |profs| && profs[i] == p;
    var j :| 0 <= j < |profs| && profs[j] == q;
    assert i == j;
  }

  /** A valid candidate's slot is free: occupied slots hold truthy ids. */
  lemma ValidoLibre(pb: Problema, p: Profesor, m: Materia, s: Slot, st: Estado)
    requires IdsValidos(pb.profesores) && Inv(pb, st)
    requires EsValido(pb, p, m, s, st)
    ensures s !in st.ocupados
  {
  }

  lemma ClasesDiaSnoc(l: seq<Entrada>, e: Entrada, d: string)
    ensures ClasesDia(l + [e], d) == ClasesDia(l, d) + (if e.dia == d then 1 else 0)
  {
    HavingConcat(l, [e], Dia, d);
    assert [e][1..] == [];
  }

  lemma HorasSnoc(l: seq<Entrada>, e: Entrada)
    ensures Horas(l + [e]) == Horas(l) + Duracion(e)
  {
    SumOfConcat(l, [e], Duracion);
    assert [e][1..] == [];
  }

  lemma ListaAsignar(pb: Problema, p: Profesor, m: Materia, s: Slot, st: Estado)
    requires p in pb.profesores && s in pb.horarios
    requires ListaValida(pb, p, Lista(st, p.id))
    requires EsValido(pb, p, m, s, st)
    ensures ListaValida(pb, p, Lista(st, p.id) + [NuevaEntrada(m, s)])
  {
    var l := Lista(st, p.id);
    var e := NuevaEntrada(m, s);
    var l' := l + [e];
    forall d ensures ClasesDia(l', d) <= 2 {
      ClasesDiaSnoc(l, e, d);
    }
    HorasSnoc(l, e);
    forall i, j | 0 <= i < j < |l'| && l'[i].dia == l'[j].dia
      ensures !Solapa(l'[j].horaInicio, l'[j].horaFin, l'[i].horaInicio, l'[i].horaFin)
    {
      if j == |l| {
        assert l'[i] in l;
        assert !(l'[i].dia == s.dia && Solapa(s.horaInicio, s.horaFin, l'[i].horaInicio, l'[i].horaFin));
      } else {
        assert l'[i] == l[i] && l'[j] == l[j];
      }
    }
    forall i | 0 <= i < |l'|
      ensures l'[i].codigo in p.materias && SlotDe(l'[i]) in pb.horarios
    {
      if i < |l| {
        assert l'[i] == l[i];
      }
    }
  }

  /** Assigning a valid candidate preserves the invariant. */
  lemma InvAsignar(pb: Problema, p: Profesor, m: Materia, s: Slot, st: Estado)
    requires IdsValidos(pb.profesores) && Inv(pb, st)
    requires p in pb.profesores && s in pb.horarios
    requires EsValido(pb, p, m, s, st)
    ensures Inv(pb, Asignar(st, p, m, s))
  {
    ValidoLibre(pb, p, m, s, st);
    assert p.id in Ids(pb.profesores);
    ListasAsignar(pb, p, m, s, st);
    SincronizadoAsignar(pb, p, m, s, st);
  }

  lemma ListasAsignar(pb: Problema, p: Profesor, m: Materia, s: Slot, st: Estado)
    requires IdsValidos(pb.profesores)
    requires forall q :: q in pb.profesores ==> ListaValida(pb, q, Lista(st, q.id))
    requires p in pb.profesores && s in pb.horarios
    requires EsValido(pb, p, m, s, st)
    ensures forall q :: q in pb.profesores ==> ListaValida(pb, q, Lista(Asignar(st, p, m, s), q.id))
  {
    var st' := Asignar(st, p, m, s);
    forall q | q in pb.profesores ensures ListaValida(pb, q, Lista(st', q.id)) {
      if q.id == p.id {
        SameId(pb.profesores, p, q);
        ListaAsignar(pb, p, m, s, st);
      } else {
        assert Lista(st', q.id) == Lista(st, q.id);
      }
    }
  }

  /** Assigning a free slot to a listed professor keeps occupancy and lists in lock-step. */
  lemma SincronizadoAsignar(pb: Problema, p: Profesor, m: Materia, s: Slot, st: Estado)
    requires Sincronizado(pb, st)
    requires p.id in st.asignaciones && s !in st.ocupados
    ensures Sincronizado(pb, Asignar(st, p, m, s))
  {
    var st' := Asignar(st, p, m, s);
    var e := NuevaEntrada(m, s);
    assert st'.asignaciones.Keys == st.asignaciones.Keys;
    forall s1 | s1 in st'.ocupados
      ensures st'.ocupados[s1] in st'.asignaciones && TieneSlot(st'.asignaciones[st'.ocupados[s1]], s1)
    {
      if s1 == s {
        var l' := st'.asignaciones[p.id];
        assert SlotDe(l'[|l'| - 1]) == s;
      } else {
        var id := st.ocupados[s1];
        var i :| 0 <= i < |st.asignaciones[id]| && SlotDe(st.asignaciones[id][i]) == s1;
        assert st'.asignaciones[id][i] == st.asignaciones[id][i];
      }
    }
    forall id, i | id in st'.asignaciones && 0 <= i < |st'.asignaciones[id]|
      ensures SlotDe(st'.asignaciones[id][i]) in st'.ocupados
           && st'.ocupados[SlotDe(st'.asignaciones[id][i])] == id
    {
      if id == p.id && i == |st.asignaciones[id]| {
        assert st'.asignaciones[id][i] == e;
      } else {
        assert st'.asignaciones[id][i] == st.asignaciones[id][i];
        assert SlotDe(st.asignaciones[id][i]) in st.ocupados;
      }
    }
  }

  // ---------------------------------------------------------------- what the search achieves

  function CodigosDe(l: seq<Entrada>): multiset<string> {
    if l == [] then multiset{} else multiset{l[0].codigo} + CodigosDe(l[1..])
  }

  /** The course codes held in the professors' lists, as a multiset. */
  function Codigos(profs: seq<Profesor>, st: Estado): multiset<string> {
    if profs == [] then multiset{} else CodigosDe(Lista(st, profs[0].id)) + Codigos(profs[1..], st)
  }

  function CodigosMaterias(ms: seq<Materia>): multiset<string> {
    if ms == [] then multiset{} else multiset{ms[0].codigo} + CodigosMaterias(ms[1..])
  }

  /** Total number of entries over the professors' lists. */
  function TotalEntradas(profs: seq<Profesor>, st: Estado): nat {
    if profs == [] then 0 else |Lista(st, profs[0].id)| + TotalEntradas(profs[1..], st)
  }

  lemma {:induction false} CodigosDeSnoc(l: seq<Entrada>, e: Entrada)
    ensures CodigosDe(l + [e]) == CodigosDe(l) + multiset{e.codigo}
  {
    if l == [] {
      assert [] + [e] == [e];
    } else {
      assert (l + [e])[1..] == l[1..] + [e];
      CodigosDeSnoc(l[1..], e);
    }
  }

  lemma {:induction false} CodigosDeSize(l: seq<Entrada>)
    ensures |CodigosDe(l)| == |l|
  {
    if l != [] {
      CodigosDeSize(l[1..]);
    }
  }

  lemma {:induction false} CodigosSize(profs: seq<Profesor>, st: Estado)
    ensures |Codigos(profs, st)| == TotalEntradas(profs, st)
  {
    if profs != [] {
      CodigosDeSize(Lista(st, profs[0].id));
      CodigosSize(profs[1..], st);
    }
  }

  /** Assigning to a professor who is not listed leaves the listed professors' codes unchanged. */
  lemma {:induction false} CodigosAsignarAusente(profs: seq<Profesor>, st: Estado, p: Profesor, m: Materia, s: Slot)
    requires p.id !in Ids(profs)
    ensures Codigos(profs, Asignar(st, p, m, s)) == Codigos(profs, st)
  {
    if profs != [] {
      var st' := Asignar(st, p, m, s);
      assert profs[0].id in Ids(profs);
      assert Lista(st', profs[0].id) == Lista(st, profs[0].id);
      assert Ids(profs[1..]) <= Ids(profs) by {
        forall id | id in Ids(profs[1..]) ensures id in Ids(profs) {
          var i :| 0 <= i < |profs[1..]| && profs[1..][i].id == id;
          assert profs[i + 1].id == id;
        }
      }
      CodigosAsignarAusente(profs[1..], st, p, m, s);
    }
  }

  /** Assigning to a listed professor adds that course's code exactly once. */
  lemma {:induction false} CodigosAsignar(profs: seq<Profesor>, st: Estado, p: Profesor, m: Materia, s: Slot)
    requires IdsValidos(profs) && p.id in Ids(profs)
    ensures Codigos(profs, Asignar(st, p, m, s)) == Codigos(profs, st) + multiset{m.codigo}
  {
    IdsCons(profs);
    if profs[0].id == p.id {
      CodigosAsignarCabeza(profs, st, p, m, s);
    } else {
      CodigosAsignar(profs[1..], st, p, m, s);
      CodigosAsignarCola(profs, st, p, m, s);
    }
  }

  /** Assigning to a professor after the first leaves the first one's codes alone. */
  lemma CodigosAsignarCola(profs: seq<Profesor>, st: Estado, p: Profesor, m: Materia, s: Slot)
    requires profs != [] && profs[0].id != p.id
    requires Codigos(profs[1..], Asignar(st, p, m, s)) == Codigos(profs[1..], st) + multiset{m.codigo}
    ensures Codigos(profs, Asignar(st, p, m, s)) == Codigos(profs, st) + multiset{m.codigo}
  {
    var st' := Asignar(st, p, m, s);
    assert Lista(st', profs[0].id) == Lista(st, profs[0].id);
  }

  /** Assigning to the first listed professor adds the code to that professor's codes only. */
  lemma CodigosAsignarCabeza(profs: seq<Profesor>, st: Estado, p: Profesor, m: Materia, s: Slot)
    requires profs != [] && profs[0].id == p.id && p.id !in Ids(profs[1..])
    ensures Codigos(profs, Asignar(st, p, m, s)) == Codigos(profs, st) + multiset{m.codigo}
  {
    var st' := Asignar(st, p, m, s);
    assert CodigosDe(Lista(st', p.id)) == CodigosDe(Lista(st, p.id)) + multiset{m.codigo} by {
      assert Lista(st', p.id) == Lista(st, p.id) + [NuevaEntrada(m, s)];
      CodigosDeSnoc(Lista(st, p.id), NuevaEntrada(m, s));
    }
    CodigosAsignarAusente(profs[1..], st, p, m, s);
  }

  /** The head's id is not repeated in the tail, and the tail's ids stay valid. */
  lemma IdsCons(profs: seq<Profesor>)
    requires IdsValidos(profs) && profs != []
    ensures IdsValidos(profs[1..])
    ensures Ids(profs) == {profs[0].id} + Ids(profs[1..])
    ensures profs[0].id !in Ids(profs[1..])
  {
    var rest := profs[1..];
    forall i, j | 0 <= i < j < |rest| ensures rest[i].id != rest[j].id {
      assert profs[i + 1].id != profs[j + 1].id;
    }
    assert profs == [profs[0]] + rest;
  }

  lemma {:induction false} CodigosMateriasSuffix(ms: seq<Materia>, idx: nat)
    requires idx < |ms|
    ensures CodigosMaterias(ms[idx..]) == multiset{ms[idx].codigo} + CodigosMaterias(ms[idx + 1..])
  {
    assert ms[idx..][1..] == ms[idx + 1..];
  }

  /**
   * `backtrack(idx)` either fails and leaves the state exactly as it found
   * it, or succeeds with the invariant intact and exactly one new entry per
   * course from `idx` on.
   */
  lemma {:induction false} BacktrackSpec(pb: Problema, idx: nat, st: Estado)
    requires idx <= |pb.materias|
    requires IdsValidos(pb.profesores) && Inv(pb, st)
    ensures var r := Backtrack(pb, idx, st);
      && (!r.0 ==> r.1 == st)
      && (r.0 ==> Inv(pb, r.1)
                  && Codigos(pb.profesores, r.1) == Codigos(pb.profesores, st) + CodigosMaterias(pb.materias[idx..]))
    decreases |pb.materias| - idx, 1, 0
  {
    if idx < |pb.materias| {
      IntentarSpec(pb, idx, Candidatos(pb.profesores, pb.horarios, pb.materias[idx].codigo), st);
    }
  }

  lemma {:induction false} IntentarSpec(pb: Problema, idx: nat, cs: seq<(Profesor, Slot)>, st: Estado)
    requires idx < |pb.materias|
    requires IdsValidos(pb.profesores) && Inv(pb, st)
    requires forall c :: c in cs ==> c.0 in pb.profesores && c.1 in pb.horarios
    ensures var r := Intentar(pb, idx, cs, st);
      && (!r.0 ==> r.1 == st)
      && (r.0 ==> Inv(pb, r.1)
                  && Codigos(pb.profesores, r.1) == Codigos(pb.profesores, st) + CodigosMaterias(pb.materias[idx..]))
    decreases |pb.materias| - idx, 0, |cs|
  {
    if cs != [] {
      var m := pb.materias[idx];
      var p := cs[0].0;
      var s := cs[0].1;
      assert p in pb.profesores && s in pb.horarios by {
        assert cs[0] in cs;
      }
      assert forall c :: c in cs[1..] ==> c.0 in pb.profesores && c.1 in pb.horarios by {
        assert forall c :: c in cs[1..] ==> c in cs;
      }
      if EsValido(pb, p, m, s, st) {
        var st1 := Asignar(st, p, m, s);
        assert Inv(pb, st1) by {
          InvAsignar(pb, p, m, s, st);
        }
        BacktrackSpec(pb, idx + 1, st1);
        var sub := Backtrack(pb, idx + 1, st1);
        if sub.0 {
          IntentarExito(pb, idx, p, m, s, st, sub.1);
        } else {
          assert Deshacer(sub.1, p, s) == st by {
            ValidoLibre(pb, p, m, s, st);
            DeshacerAsignar(st, p, m, s);
          }
          IntentarSpec(pb, idx, cs[1..], st);
        }
      } else {
        IntentarSpec(pb, idx, cs[1..], st);
      }
    }
  }

  /** A candidate whose sub-search succeeds contributes its course's code on top of the later courses' codes. */
  lemma IntentarExito(pb: Problema, idx: nat, p: Profesor, m: Materia, s: Slot, st: Estado, st2: Estado)
    requires idx < |pb.materias| && m == pb.materias[idx]
    requires IdsValidos(pb.profesores) && p in pb.profesores
    requires Codigos(pb.profesores, st2) == Codigos(pb.profesores, Asignar(st, p, m, s)) + CodigosMaterias(pb.materias[idx + 1..])
    ensures Codigos(pb.profesores, st2) == Codigos(pb.profesores, st) + CodigosMaterias(pb.materias[idx..])
  {
    assert p.id in Ids(pb.profesores);
    CodigosAsignar(pb.profesores, st, p, m, s);
    CodigosMateriasSuffix(pb.materias, idx);
  }

  // ---------------------------------------------------------------- completeness

  /**
   * The courses from `idx` on can be placed one after another: for each of
   * them some (professor, slot) pair of its candidates passes `esValido` at
   * that point, and the rest can be placed after it.
   */
  ghost predicate Resoluble(pb: Problema, idx: nat, st: Estado)
    requires idx <= |pb.materias|
    decreases |pb.materias| - idx, 1
  {
    idx == |pb.materias|
    || var cs := Candidatos(pb.profesores, pb.horarios, pb.materias[idx].codigo);
       exists j | 0 <= j < |cs| :: Elegible(pb, idx, cs[j], st)
  }

  /** Candidate `c` passes `esValido` for course `idx` and leaves the later courses placeable. */
  ghost predicate Elegible(pb: Problema, idx: nat, c: (Profesor, Slot), st: Estado)
    requires idx < |pb.materias|
    decreases |pb.materias| - idx, 0
  {
    && EsValido(pb, c.0, pb.materias[idx], c.1, st)
    && Resoluble(pb, idx + 1, Asignar(st, c.0, pb.materias[idx], c.1))
  }

  /**
   * The search is complete: `backtrack(idx)` succeeds exactly when the
   * remaining courses can be placed by some sequence of valid choices.
   */
  lemma {:induction false} BacktrackCompleto(pb: Problema, idx: nat, st: Estado)
    requires idx <= |pb.materias|
    requires IdsValidos(pb.profesores) && Inv(pb, st)
    ensures Backtrack(pb, idx, st).0 <==> Resoluble(pb, idx, st)
    decreases |pb.materias| - idx, 1, 0
  {
    if idx < |pb.materias| {
      var cs := Candidatos(pb.profesores, pb.horarios, pb.materias[idx].codigo);
      IntentarCompleto(pb, idx, cs, st);
    }
  }

  lemma {:induction false} IntentarCompleto(pb: Problema, idx: nat, cs: seq<(Profesor, Slot)>, st: Estado)
    requires idx < |pb.materias|
    requires IdsValidos(pb.profesores) && Inv(pb, st)
    requires forall c :: c in cs ==> c.0 in pb.profesores && c.1 in pb.horarios
    ensures Intentar(pb, idx, cs, st).0 <==> exists j | 0 <= j < |cs| :: Elegible(pb, idx, cs[j], st)
    decreases |pb.materias| - idx, 0, |cs|
  {
    if cs != [] {
      var m := pb.materias[idx];
      var p := cs[0].0;
      var s := cs[0].1;
      assert p in pb.profesores && s in pb.horarios by {
        assert cs[0] in cs;
      }
      assert forall c :: c in cs[1..] ==> c.0 in pb.profesores && c.1 in pb.horarios by {
        assert forall c :: c in cs[1..] ==> c in cs;
      }
      IntentarCompleto(pb, idx, cs[1..], st);
      IntentarPaso(pb, idx, cs, st);
      if EsValido(pb, p, m, s, st) {
        var st1 := Asignar(st, p, m, s);
        InvAsignar(pb, p, m, s, st);
        BacktrackCompleto(pb, idx + 1, st1);
        BacktrackSpec(pb, idx + 1, st1);
        if !Backtrack(pb, idx + 1, st1).0 {
          ValidoLibre(pb, p, m, s, st);
          DeshacerAsignar(st, p, m, s);
        }
      }
    }
  }

  /** A witness among `cs` is either the head or a witness among the tail. */
  lemma IntentarPaso(pb: Problema, idx: nat, cs: seq<(Profesor, Slot)>, st: Estado)
    requires idx < |pb.materias| && cs != []
    ensures (exists j | 0 <= j < |cs| :: Elegible(pb, idx, cs[j], st))
        <==> Elegible(pb, idx, cs[0], st) || exists j | 0 <= j < |cs[1..]| :: Elegible(pb, idx, cs[1..][j], st)
  {
    if j :| 0 <= j < |cs| && Elegible(pb, idx, cs[j], st) {
      if j > 0 {
        assert cs[1..][j - 1] == cs[j];
      }
    }
    if j :| 0 <= j < |cs[1..]| && Elegible(pb, idx, cs[1..][j], st) {
      assert cs[j + 1] == cs[1..][j];
    }
  }

  // ---------------------------------------------------------------- no double booking

  /** No slot appears in the lists of two different professors. */
  predicate SinDobleReserva(asignaciones: map<string, seq<Entrada>>) {
    forall id1, id2, i, j ::
      && id1 in asignaciones && id2 in asignaciones && id1 != id2
      && 0 <= i < |asignaciones[id1]| && 0 <= j < |asignaciones[id2]|
      ==> SlotDe(asignaciones[id1][i]) != SlotDe(asignaciones[id2][j])
  }

  /** Occupancy in lock-step with the lists rules out a slot shared by two professors. */
  lemma SincronizadoSinDobleReserva(pb: Problema, st: Estado)
    requires Sincronizado(pb, st)
    ensures SinDobleReserva(st.asignaciones)
  {
    forall id1, id2, i, j |
      && id1 in st.asignaciones && id2 in st.asignaciones && id1 != id2
      && 0 <= i < |st.asignaciones[id1]| && 0 <= j < |st.asignaciones[id2]|
      ensures SlotDe(st.asignaciones[id1][i]) != SlotDe(st.asignaciones[id2][j])
    {
      assert st.ocupados[SlotDe(st.asignaciones[id1][i])] == id1;
      assert st.ocupados[SlotDe(st.asignaciones[id2][j])] == id2;
    }
  }

  // ---------------------------------------------------------------- entry point

  function ProblemaDe(profs: seq<Profesor>, materias: seq<Materia>, horarios: seq<Slot>, opciones: Opciones): Problema {
    Problema(profs, OrdenarMaterias(materias), horarios, opciones)
  }

  /** The codes of a permutation are the same codes. */
  lemma {:induction false} CodigosMateriasMultiset(ms: seq<Materia>, ns: seq<Materia>)
    requires multiset(ms) == multiset(ns)
    ensures CodigosMaterias(ms) == CodigosMaterias(ns)
    decreases |ms|
  {
    if ms != [] {
      var x := ms[0];
      assert x in multiset(ns);
      var k :| 0 <= k < |ns| && ns[k] == x;
      var ns' := ns[..k] + ns[k + 1..];
      SinElemento(ns, k);
      assert ms == [x] + ms[1..];
      assert multiset(ms) == multiset{x} + multiset(ms[1..]);
      MultisetCancel(x, multiset(ms[1..]), multiset(ns'));
      CodigosMateriasMultiset(ms[1..], ns');
    }
  }

  /** Taking one course out of a sequence takes its code out of the codes. */
  lemma SinElemento(ns: seq<Materia>, k: nat)
    requires k < |ns|
    ensures multiset(ns) == multiset{ns[k]} + multiset(ns[..k] + ns[k + 1..])
    ensures CodigosMaterias(ns) == multiset{ns[k].codigo} + CodigosMaterias(ns[..k] + ns[k + 1..])
  {
    SinElementoMultiset(ns, k);
    SinElementoCodigos(ns, k);
  }

  lemma SinElementoMultiset(ns: seq<Materia>, k: nat)
    requires k < |ns|
    ensures multiset(ns) == multiset{ns[k]} + multiset(ns[..k] + ns[k + 1..])
  {
    var resto := [ns[k]] + ns[k + 1..];
    assert ns == ns[..k] + resto;
    assert multiset(ns) == multiset(ns[..k]) + multiset(resto);
    assert multiset(ns[..k] + ns[k + 1..]) == multiset(ns[..k]) + multiset(ns[k + 1..]);
  }

  lemma SinElementoCodigos(ns: seq<Materia>, k: nat)
    requires k < |ns|
    ensures CodigosMaterias(ns) == multiset{ns[k].codigo} + CodigosMaterias(ns[..k] + ns[k + 1..])
  {
    var pre, post := ns[..k], ns[k + 1..];
    var resto := [ns[k]] + post;
    var a, b, c := CodigosMaterias(pre), CodigosMaterias(resto), CodigosMaterias(post);
    assert CodigosMaterias(ns) == a + b by {
      assert ns == pre + resto;
      CodigosMateriasSplit(pre, resto);
    }
    assert b == multiset{ns[k].codigo} + c by {
      assert resto[1..] == post;
    }
    assert CodigosMaterias(pre + post) == a + c by {
      CodigosMateriasSplit(pre, post);
    }
  }

  lemma MultisetCancel<T>(x: T, a: multiset<T>, b: multiset<T>)
    requires multiset{x} + a == multiset{x} + b
    ensures a == b
  {
    forall y ensures a[y] == b[y] {
      assert (multiset{x} + a)[y] == (multiset{x} + b)[y];
    }
  }

  lemma {:induction false} CodigosMateriasSplit(a: seq<Materia>, b: seq<Materia>)
    ensures CodigosMaterias(a + b) == CodigosMaterias(a) + CodigosMaterias(b)
  {
    if a == [] {
      assert a + b == b;
    } else {
      assert (a + b)[1..] == a[1..] + b;
      CodigosMateriasSplit(a[1..], b);
    }
  }

  /**
   * `asignarHorariosBacktracking`. With distinct truthy professor ids: it
   * succeeds exactly when the sorted courses can be placed one after another
   * by valid choices; on success every hard rule holds, no slot is given to
   * two professors, and the lists hold exactly the courses' codes, one entry
   * per course; on failure every professor's list is empty.
   */
  function AsignarHorariosBacktracking(
    profs: seq<Profesor>, materias: seq<Materia>, horarios: seq<Slot>, opciones: Opciones): (r: Salida)
    ensures IdsValidos(profs) && r.exito ==>
      var pb := ProblemaDe(profs, materias, horarios, opciones);
      && (forall p :: p in profs ==> ListaValida(pb, p, if p.id in r.asignaciones then r.asignaciones[p.id] else []))
      && Codigos(profs, Estado(r.asignaciones, map[])) == CodigosMaterias(materias)
      && TotalEntradas(profs, Estado(r.asignaciones, map[])) == |materias|
    ensures IdsValidos(profs) && r.exito ==> SinDobleReserva(r.asignaciones)
    ensures IdsValidos(profs) && !r.exito ==>
      forall p :: p in profs ==> p.id in r.asignaciones && r.asignaciones[p.id] == []
    ensures IdsValidos(profs) ==>
      (r.exito <==> Resoluble(ProblemaDe(profs, materias, horarios, opciones), 0, EstadoInicial(profs)))
  {
    var pb := ProblemaDe(profs, materias, horarios, opciones);
    var st0 := EstadoInicial(profs);
    var res := Backtrack(pb, 0, st0);
    var salida := Salida(res.0, res.1.asignaciones, GenerarResumen(res.1.asignaciones, profs));
    if IdsValidos(profs) then
      InvInicial(pb);
      BacktrackSpec(pb, 0, st0);
      BacktrackCompleto(pb, 0, st0);
      CodigosInicial(profs);
      OrdenarMateriasSpec(materias);
      CodigosMateriasMultiset(pb.materias, materias);
      assert pb.materias[0..] == pb.materias;
      CodigosSize(profs, res.1);
      CodigosSinOcupados(profs, res.1);
      CodigosSize(profs, Estado(res.1.asignaciones, map[]));
      assert |CodigosMaterias(materias)| == |materias| by {
        CodigosMateriasSize(materias);
      }
      if res.0 then
        SincronizadoSinDobleReserva(pb, res.1);
        salida
      else
        salida
    else
      salida
  }

  lemma {:induction false} CodigosMateriasSize(ms: seq<Materia>)
    ensures |CodigosMaterias(ms)| == |ms|
  {
    if ms != [] {
      CodigosMateriasSize(ms[1..]);
    }
  }

  lemma {:induction false} CodigosInicial(profs: seq<Profesor>)
    ensures Codigos(profs, EstadoInicial(profs)) == multiset{}
  {
    if profs != [] {
      CodigosInicialFrom(profs[1..], EstadoInicial(profs));
    }
  }

  lemma {:induction false} CodigosInicialFrom(profs: seq<Profesor>, st: Estado)
    requires forall id :: id in st.asignaciones ==> st.asignaciones[id] == []
    ensures Codigos(profs, st) == multiset{}
  {
    if profs != [] {
      CodigosInicialFrom(profs[1..], st);
    }
  }

  /** The codes depend only on the lists, not on the occupancy index. */
  lemma {:induction false} CodigosSinOcupados(profs: seq<Profesor>, st: Estado)
    ensures Codigos(profs, st) == Codigos(profs, Estado(st.asignaciones, map[]))
    ensures TotalEntradas(profs, st) == TotalEntradas(profs, Estado(st.asignaciones, map[]))
  {
    if profs != [] {
      CodigosSinOcupados(profs[1..], st);
    }
  }

  // ---------------------------------------------------------------- printable summary

  function ListaDe(asignaciones: map<string, seq<Entrada>>, id: string): seq<Entrada> {
    if id in asignaciones then asignaciones[id] else []
  }

  function BloqueResumen(asignaciones: map<string, seq<Entrada>>, p: Profesor): seq<Linea> {
    var l := ListaDe(asignaciones, p.id);
    [Cabecera(p.nombre, p.id)]
    + (if l == [] then [SinAsignaciones] else seq(|l|, i requires 0 <= i < |l| => Asignada(l[i])))
    + [Separador]
  }

  /** `generarResumen`: one block per professor in list order. */
  function GenerarResumen(asignaciones: map<string, seq<Entrada>>, profs: seq<Profesor>): seq<Linea> {
    if profs == [] then [] else BloqueResumen(asignaciones, profs[0]) + GenerarResumen(asignaciones, profs[1..])
  }

  /** The entries printed by a summary, in print order. */
  function EntradasImpresas(ls: seq<Linea>): seq<Entrada> {
    if ls == [] then []
    else (if ls[0].Asignada? then [ls[0].entrada] else []) + EntradasImpresas(ls[1..])
  }

  /** The number of "Sin asignaciones" lines. */
  function Vacias(ls: seq<Linea>): nat {
    if ls == [] then 0 else (if ls[0].SinAsignaciones? then 1 else 0) + Vacias(ls[1..])
  }

  /** The professors' lists concatenated in professor order. */
  function Concatenadas(asignaciones: map<string, seq<Entrada>>, profs: seq<Profesor>): seq<Entrada> {
    if profs == [] then [] else ListaDe(asignaciones, profs[0].id) + Concatenadas(asignaciones, profs[1..])
  }

  /** The number of professors whose list is empty. */
  function SinListas(asignaciones: map<string, seq<Entrada>>, profs: seq<Profesor>): nat {
    if profs == [] then 0
    else (if ListaDe(asignaciones, profs[0].id) == [] then 1 else 0) + SinListas(asignaciones, profs[1..])
  }

  lemma {:induction false} ImpresasConcat(a: seq<Linea>, b: seq<Linea>)
    ensures EntradasImpresas(a + b) == EntradasImpresas(a) + EntradasImpresas(b)
    ensures Vacias(a + b) == Vacias(a) + Vacias(b)
  {
    if a == [] {
      assert a + b == b;
    } else {
      var ab := a + b;
      assert ab[0] == a[0];
      assert ab[1..] == a[1..] + b;
      ImpresasConcat(a[1..], b);
      var e: seq<Entrada> := if a[0].Asignada? then [a[0].entrada] else [];
      assert EntradasImpresas(ab) == e + EntradasImpresas(a[1..] + b);
      assert EntradasImpresas(a) == e + EntradasImpresas(a[1..]);
      assert Vacias(ab) == (if a[0].SinAsignaciones? then 1 else 0) + Vacias(a[1..] + b);
    }
  }

  lemma {:induction false} ImpresasEntradas(l: seq<Entrada>)
    ensures var ls := seq(|l|, i requires 0 <= i < |l| => Asignada(l[i]));
      EntradasImpresas(ls) == l && Vacias(ls) == 0
  {
    var ls := seq(|l|, i requires 0 <= i < |l| => Asignada(l[i]));
    if l != [] {
      ImpresasEntradas(l[1..]);
      assert ls[1..] == seq(|l[1..]|, i requires 0 <= i < |l[1..]| => Asignada(l[1..][i]));
      assert l == [l[0]] + l[1..];
    }
  }

  /** A professor's block prints their list, or one "Sin asignaciones" line when it is empty. */
  lemma BloqueSpec(asignaciones: map<string, seq<Entrada>>, p: Profesor)
    ensures EntradasImpresas(BloqueResumen(asignaciones, p)) == ListaDe(asignaciones, p.id)
    ensures Vacias(BloqueResumen(asignaciones, p)) == if ListaDe(asignaciones, p.id) == [] then 1 else 0
  {
    var l := ListaDe(asignaciones, p.id);
    var cuerpo := if l == [] then [SinAsignaciones] else seq(|l|, i requires 0 <= i < |l| => Asignada(l[i]));
    ImpresasEntradas(l);
    ImpresasConcat([Cabecera(p.nombre, p.id)], cuerpo);
    ImpresasConcat([Cabecera(p.nombre, p.id)] + cuerpo, [Separador]);
    assert EntradasImpresas([SinAsignaciones]) == [] && Vacias([SinAsignaciones]) == 1;
  }

  /**
   * The summary prints every professor's entries, in list order and
   * professor order, and a "Sin asignaciones" line exactly once per
   * professor with an empty list.
   */
  lemma {:induction false} GenerarResumenSpec(asignaciones: map<string, seq<Entrada>>, profs: seq<Profesor>)
    ensures EntradasImpresas(GenerarResumen(asignaciones, profs)) == Concatenadas(asignaciones, profs)
    ensures Vacias(GenerarResumen(asignaciones, profs)) == SinListas(asignaciones, profs)
  {
    if profs != [] {
      GenerarResumenSpec(asignaciones, profs[1..]);
      BloqueSpec(asignaciones, profs[0]);
      ImpresasConcat(BloqueResumen(asignaciones, profs[0]), GenerarResumen(asignaciones, profs[1..]));
    }
  }
}
