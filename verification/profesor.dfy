/**
 * The professor store: the contract-type table, record creation, update and
 * deletion, per-professor class blocks, the weekly load, and the conflict
 * check a new block must pass.
 *
 * The JSON file becomes a sequence of records passed in and returned; the
 * generated ids (`Date.now()`) and ISO timestamps are parameters.
 */
module Profesores {
  import opened Wrappers
  import opened Seqs
  import opened Intervalos

  const TIEMPO_PARCIAL: string := "tiempo_parcial"
  const MEDIO_TIEMPO: string := "medio_tiempo"
  const TIEMPO_COMPLETO: string := "tiempo_completo"

  /** One row of the contract-type table. */
  datatype TipoHoras = TipoHoras(nombre: string, horasTotales: int, horasClase: int)

  /** `tiposProfesor`: contract type to its weekly hours and class hours. */
  const TIPOS_PROFESOR: map<string, TipoHoras> := map[
    TIEMPO_PARCIAL := TipoHoras("Tiempo Parcial", 10, 8),
    MEDIO_TIEMPO := TipoHoras("Medio Tiempo", 20, 16),
    TIEMPO_COMPLETO := TipoHoras("Tiempo Completo", 40, 24)]

  /** A class block in a professor's `horarios`. */
  datatype Horario = Horario(
    id: string,
    materiaId: string,
    dia: string,
    horaInicio: int,
    horaFin: int,
    tipo: string,
    createdAt: string)

  /**
   * A stored professor. The numeric caps are optional because records written
   * by older versions may lack them; `maxHorasSemana` is such a legacy field.
   */
  datatype Profesor = Profesor(
    id: string,
    nombre: string,
    apellido: string,
    email: string,
    especialidad: string,
    tipo: string,
    maxHorasTotales: Option<int>,
    maxHorasClase: Option<int>,
    maxHorasSemana: Option<int>,
    horarios: seq<Horario>,
    createdAt: string,
    updatedAt: Option<string>)

  /** The request fields `create` and `update` read; an empty `tipo` is a missing one. */
  datatype DatosProfesor = DatosProfesor(nombre: string, apellido: string, email: string, especialidad: string, tipo: string)

  /** The request fields `addHorario` reads; an empty `tipo` is a missing one. */
  datatype DatosHorario = DatosHorario(materiaId: string, dia: string, horaInicio: int, horaFin: int, tipo: string)

  /** The proposed block `checkConflictos` tests. */
  datatype Bloque = Bloque(dia: string, horaInicio: int, horaFin: int)

  /** The load report of `getCargaHoraria`; `horasPorDia` lists days in first-appearance order. */
  datatype Carga = Carga(
    profesor: Profesor,
    horasPorDia: seq<(string, int)>,
    totalHoras: int,
    maxHorasClase: int,
    maxHorasTotales: int,
    disponible: int)

  datatype Conflicto =
    | ConflictoHorario(horarioExistente: Horario)
    | LimiteHoras(horasActuales: int, horasNuevas: int, limite: int)

  // ---------------------------------------------------------------- contract types

  /** `validarTipo`: exactly the three table keys are valid. */
  predicate ValidarTipo(tipo: string)
    ensures ValidarTipo(tipo) <==> tipo == TIEMPO_PARCIAL || tipo == MEDIO_TIEMPO || tipo == TIEMPO_COMPLETO
  {
    tipo in TIPOS_PROFESOR
  }

  /** `getHorasPorTipo`: the table row, and the `medio_tiempo` row for any other key. */
  function GetHorasPorTipo(tipo: string): (h: TipoHoras)
    ensures h in TIPOS_PROFESOR.Values
    ensures !ValidarTipo(tipo) ==> h == TipoHoras("Medio Tiempo", 20, 16)
  {
    if tipo in TIPOS_PROFESOR then TIPOS_PROFESOR[tipo] else TIPOS_PROFESOR[MEDIO_TIEMPO]
  }

  /** The table's concrete hours, and class hours never exceed the weekly hours. */
  lemma HorasPorTipoTabla(tipo: string)
    ensures GetHorasPorTipo(tipo).horasClase <= GetHorasPorTipo(tipo).horasTotales
    ensures tipo == TIEMPO_PARCIAL ==> GetHorasPorTipo(tipo) == TipoHoras("Tiempo Parcial", 10, 8)
    ensures tipo == TIEMPO_COMPLETO ==> GetHorasPorTipo(tipo) == TipoHoras("Tiempo Completo", 40, 24)
    ensures !ValidarTipo(tipo) ==> GetHorasPorTipo(tipo) == GetHorasPorTipo(MEDIO_TIEMPO)
  {
  }

  // ---------------------------------------------------------------- lookup

  function Id(p: Profesor): string { p.id }

  /** `findIndex(p => p.id === id)` (and `find`): the first record holding `id`, if any. */
  function Buscar(store: seq<Profesor>, id: string): Option<nat> {
    IndexOf(store, Id, id)
  }

  /** The ids of the stored records, in store order. */
  function Ids(store: seq<Profesor>): (r: seq<string>)
    ensures |r| == |store|
    ensures forall i :: 0 <= i < |store| ==> r[i] == store[i].id
  {
    seq(|store|, i requires 0 <= i < |store| => store[i].id)
  }

  /** No two stored records share an id. */
  predicate IdsUnicos(store: seq<Profesor>) {
    forall i, j :: 0 <= i < j < |store| ==> store[i].id != store[j].id
  }

  // ---------------------------------------------------------------- create / update / delete

  /** `create`: append a record typed by `tipo || 'medio_tiempo'`, or refuse an unknown type. */
  function Create(store: seq<Profesor>, datos: DatosProfesor, id: string, ahora: string): (r: Result<(seq<Profesor>, Profesor)>)
    ensures r.Err? <==> !ValidarTipo(OrStr(datos.tipo, MEDIO_TIEMPO))
    ensures r.Err? ==> r.msg == "Tipo de profesor inválido"
    ensures r.Ok? ==>
      var (store', p) := r.value;
      && store' == store + [p]
      && p.id == id && p.createdAt == ahora && p.updatedAt.None?
      && p.horarios == []
      && ValidarTipo(p.tipo)
      && (datos.tipo != "" ==> p.tipo == datos.tipo)
      && (datos.tipo == "" ==> p.tipo == MEDIO_TIEMPO)
      && p.nombre == datos.nombre && p.apellido == datos.apellido
      && p.email == datos.email && p.especialidad == datos.especialidad
      && p.maxHorasSemana.None?
      && p.maxHorasTotales == Some(TIPOS_PROFESOR[p.tipo].horasTotales)
      && p.maxHorasClase == Some(TIPOS_PROFESOR[p.tipo].horasClase)
  {
    var tipo := OrStr(datos.tipo, MEDIO_TIEMPO);
    if !ValidarTipo(tipo) then Err("Tipo de profesor inválido")
    else
      var horas := GetHorasPorTipo(tipo);
      var p := Profesor(id, datos.nombre, datos.apellido, datos.email, datos.especialidad, tipo,
                        Some(horas.horasTotales), Some(horas.horasClase), None, [], ahora, None);
      Ok((store + [p], p))
  }

  /** A fresh id keeps the ids unique, and the new record is found under it. */
  lemma CreateKeepsIdsUnicos(store: seq<Profesor>, datos: DatosProfesor, id: string, ahora: string)
    requires IdsUnicos(store)
    requires forall i :: 0 <= i < |store| ==> store[i].id != id
    ensures var r := Create(store, datos, id, ahora);
      r.Ok? ==> IdsUnicos(r.value.0) && Buscar(r.value.0, id) == Some(|store|)
  {
    var r := Create(store, datos, id, ahora);
    if r.Ok? {
      IndexOfAppended(store, r.value.1, Id);
    }
  }

  /** `update` message when no record has the id. */
  function NoEncontrado(id: string): string {
    "Profesor con ID " + id + " no encontrado"
  }

  /**
   * `update`: rewrite the first record holding `id`. The type is
   * `datos.tipo || stored.tipo || 'medio_tiempo'`; the id, the blocks, the
   * creation stamp and every field the request does not name (such as
   * `maxHorasSemana`) are kept.
   */
  function Update(store: seq<Profesor>, id: string, datos: DatosProfesor, ahora: string): (r: Result<(seq<Profesor>, Profesor)>)
    ensures Buscar(store, id).None? ==> r == Err(NoEncontrado(id))
    ensures Buscar(store, id).Some? ==>
      var i := Buscar(store, id).value;
      var tipo := OrStr(datos.tipo, OrStr(store[i].tipo, MEDIO_TIEMPO));
      && (r.Err? <==> !ValidarTipo(tipo))
      && (r.Err? ==> r.msg == "Tipo de profesor inválido")
      && (r.Ok? ==>
        var (store', p) := r.value;
        && |store'| == |store|
        && store'[i] == p
        && (forall j :: 0 <= j < |store| && j != i ==> store'[j] == store[j])
        && p.id == store[i].id && p.horarios == store[i].horarios
        && p.createdAt == store[i].createdAt && p.maxHorasSemana == store[i].maxHorasSemana
        && p.updatedAt == Some(ahora)
        && p.nombre == datos.nombre && p.apellido == datos.apellido
        && p.email == datos.email && p.especialidad == datos.especialidad
        && p.tipo == tipo
        && p.maxHorasTotales == Some(TIPOS_PROFESOR[tipo].horasTotales)
        && p.maxHorasClase == Some(TIPOS_PROFESOR[tipo].horasClase))
  {
    match Buscar(store, id)
    case None => Err(NoEncontrado(id))
    case Some(i) =>
      var viejo := store[i];
      var tipo := OrStr(datos.tipo, OrStr(viejo.tipo, MEDIO_TIEMPO));
      if !ValidarTipo(tipo) then Err("Tipo de profesor inválido")
      else
        var horas := GetHorasPorTipo(tipo);
        var p := viejo.(
          nombre := datos.nombre, apellido := datos.apellido, email := datos.email,
          especialidad := datos.especialidad, tipo := tipo,
          maxHorasTotales := Some(horas.horasTotales), maxHorasClase := Some(horas.horasClase),
          updatedAt := Some(ahora));
        Ok((store[i := p], p))
  }

  /** An update never changes which ids the store holds, nor where. */
  lemma UpdateKeepsIds(store: seq<Profesor>, id: string, datos: DatosProfesor, ahora: string)
    ensures var r := Update(store, id, datos, ahora);
      r.Ok? ==> Ids(r.value.0) == Ids(store) && (IdsUnicos(store) ==> IdsUnicos(r.value.0))
  {
    var r := Update(store, id, datos, ahora);
    if r.Ok? {
      assert Ids(r.value.0) == Ids(store);
    }
  }

  /** `delete`: drop every record holding `id`; refuse when none does. */
  function Delete(store: seq<Profesor>, id: string): (r: Result<seq<Profesor>>)
    ensures r.Err? ==> r.msg == "Profesor no encontrado"
    ensures r.Ok? ==> r.value == Without(store, Id, id)
  {
    var resto := Without(store, Id, id);
    if |resto| == |store| then Err("Profesor no encontrado") else Ok(resto)
  }

  /**
   * `delete` fails exactly when no record holds the id; on success nothing
   * with that id is left, every other record is kept in order, and the
   * number removed is the number of records that held it.
   */
  lemma DeleteSpec(store: seq<Profesor>, id: string)
    ensures Delete(store, id).Err? <==> Buscar(store, id).None?
    ensures Delete(store, id).Ok? ==>
      var r := Delete(store, id).value;
      && (forall i :: 0 <= i < |r| ==> r[i].id != id && r[i] in store)
      && (forall i :: 0 <= i < |store| && store[i].id != id ==> store[i] in r)
      && |store| - |r| == CountHaving(store, Id, id)
  {
    HavingWithoutSplit(store, Id, id);
    HavingSpec(store, Id, id);
    if Buscar(store, id).Some? {
      var i := Buscar(store, id).value;
      assert store[i] in Having(store, Id, id);
    } else {
      WithoutAbsent(store, Id, id);
    }
  }

  // ---------------------------------------------------------------- class blocks

  /** The block `addHorario` records for the given data; its type defaults to `teoria`. */
  function NuevoHorario(datos: DatosHorario, id: string, ahora: string): Horario {
    Horario(id, datos.materiaId, datos.dia, datos.horaInicio, datos.horaFin, OrStr(datos.tipo, "teoria"), ahora)
  }

  /** The hour range of the data, as `checkConflictos` receives it. */
  function BloqueDe(datos: DatosHorario): Bloque {
    Bloque(datos.dia, datos.horaInicio, datos.horaFin)
  }

  /** The record with one more block at the end of its list. */
  function ConHorario(p: Profesor, h: Horario): (r: Profesor)
    ensures r.horarios == p.horarios + [h]
    ensures r.(horarios := p.horarios) == p
  {
    p.(horarios := p.horarios + [h])
  }

  /** `addHorario`: append a block to the first record holding `profesorId`. */
  function AddHorario(store: seq<Profesor>, profesorId: string, datos: DatosHorario, id: string, ahora: string)
    : (r: Result<(seq<Profesor>, Horario)>)
    ensures Buscar(store, profesorId).None? <==> r.Err?
    ensures r.Err? ==> r.msg == "Profesor no encontrado"
    ensures r.Ok? ==>
      var i := Buscar(store, profesorId).value;
      var (store', h) := r.value;
      && h == Horario(id, datos.materiaId, datos.dia, datos.horaInicio, datos.horaFin, OrStr(datos.tipo, "teoria"), ahora)
      && |store'| == |store|
      && store'[i] == store[i].(horarios := store[i].horarios + [h])
      && (forall j :: 0 <= j < |store| && j != i ==> store'[j] == store[j])
  {
    match Buscar(store, profesorId)
    case None => Err("Profesor no encontrado")
    case Some(i) =>
      var h := NuevoHorario(datos, id, ahora);
      Ok((store[i := ConHorario(store[i], h)], h))
  }

  /** Adding a block keeps every record's id in place, so every lookup finds what it found before. */
  lemma AddHorarioKeepsIds(store: seq<Profesor>, profesorId: string, datos: DatosHorario, id: string, ahora: string, otro: string)
    ensures var r := AddHorario(store, profesorId, datos, id, ahora);
      r.Ok? ==> Ids(r.value.0) == Ids(store) && Buscar(r.value.0, otro) == Buscar(store, otro)
  {
    var r := AddHorario(store, profesorId, datos, id, ahora);
    if r.Ok? {
      assert Ids(r.value.0) == Ids(store);
      IndexOfSameKeys(r.value.0, store, Id, otro);
    }
  }

  function HorarioId(h: Horario): string { h.id }

  /**
   * `removeHorario`: drop the blocks with `horarioId` from the first record
   * holding `profesorId`; no other record changes, even one sharing the id.
   */
  function RemoveHorario(store: seq<Profesor>, profesorId: string, horarioId: string): (r: Result<seq<Profesor>>)
    ensures Buscar(store, profesorId).None? <==> r.Err?
    ensures r.Err? ==> r.msg == "Profesor no encontrado"
    ensures r.Ok? ==>
      var i := Buscar(store, profesorId).value;
      && |r.value| == |store|
      && r.value[i] == store[i].(horarios := Without(store[i].horarios, HorarioId, horarioId))
      && (forall j :: 0 <= j < |store| && j != i ==> r.value[j] == store[j])
  {
    match Buscar(store, profesorId)
    case None => Err("Profesor no encontrado")
    case Some(i) =>
      Ok(store[i := store[i].(horarios := Without(store[i].horarios, HorarioId, horarioId))])
  }

  /** Removing a block just added under a fresh block id gives the store back. */
  lemma RemoveAfterAdd(store: seq<Profesor>, profesorId: string, datos: DatosHorario, id: string, ahora: string)
    requires Buscar(store, profesorId).Some?
    requires var hs := store[Buscar(store, profesorId).value].horarios;
      forall k :: 0 <= k < |hs| ==> hs[k].id != id
    ensures var added := AddHorario(store, profesorId, datos, id, ahora);
      added.Ok? && RemoveHorario(added.value.0, profesorId, id) == Ok(store)
  {
    var i := Buscar(store, profesorId).value;
    var added := AddHorario(store, profesorId, datos, id, ahora);
    var store' := added.value.0;
    var hs := store[i].horarios;
    var h := added.value.1;
    IndexOfSameKeys(store, store', Id, profesorId);
    WithoutConcat(hs, [h], HorarioId, id);
    WithoutAbsent(hs, HorarioId, id);
    assert Without([h], HorarioId, id) == [];
    assert hs + [] == hs;
    assert store'[i := store[i]] == store;
  }

  // ---------------------------------------------------------------- weekly load

  function Dia(h: Horario): string { h.dia }

  function Duracion(h: Horario): int { h.horaFin - h.horaInicio }

  /** Total hours of a list of blocks. */
  function TotalHoras(hs: seq<Horario>): int { SumOf(hs, Duracion) }

  /** `maxHorasClase || maxHorasSemana || 20`: the class-hours cap. */
  function Cap(p: Profesor): int { Or(p.maxHorasClase, Or(p.maxHorasSemana, 20)) }

  /** The days of an insertion-ordered day table. */
  function Claves(t: seq<(string, int)>): (r: seq<string>)
    ensures |r| == |t|
    ensures forall i :: 0 <= i < |t| ==> r[i] == t[i].0
  {
    seq(|t|, i requires 0 <= i < |t| => t[i].0)
  }

  /** The value a day table holds for `d`, and 0 for a day it lacks. */
  function Valor(t: seq<(string, int)>, d: string): int {
    if t == [] then 0 else if t[0].0 == d then t[0].1 else Valor(t[1..], d)
  }

  function SumaValores(t: seq<(string, int)>): int {
    if t == [] then 0 else t[0].1 + SumaValores(t[1..])
  }

  predicate ClavesUnicas(t: seq<(string, int)>) {
    forall i, j :: 0 <= i < j < |t| ==> t[i].0 != t[j].0
  }

  /** `tabla[d] += x`, creating `d` at the end with 0 first when it is missing. */
  function Acumular(t: seq<(string, int)>, d: string, x: int): (r: seq<(string, int)>)
    ensures d in Claves(t) ==> Claves(r) == Claves(t)
    ensures d !in Claves(t) ==> Claves(r) == Claves(t) + [d]
  {
    if t == [] then [(d, x)]
    else if t[0].0 == d then [(d, t[0].1 + x)] + t[1..]
    else
      var r := [t[0]] + Acumular(t[1..], d, x);
      assert Claves(t) == [t[0].0] + Claves(t[1..]);
      assert Claves(r) == [t[0].0] + Claves(Acumular(t[1..], d, x));
      r
  }

  /** Adding under `d` changes `d`'s value by `x`, no other day's, and the table's sum by `x`. */
  lemma {:induction false} AcumularValor(t: seq<(string, int)>, d: string, x: int)
    ensures Valor(Acumular(t, d, x), d) == Valor(t, d) + x
    ensures forall e :: e != d ==> Valor(Acumular(t, d, x), e) == Valor(t, e)
    ensures SumaValores(Acumular(t, d, x)) == SumaValores(t) + x
  {
    if t != [] && t[0].0 != d {
      AcumularValor(t[1..], d, x);
    }
  }

  /** Adding under a day keeps each day listed once. */
  lemma {:induction false} AcumularUnicas(t: seq<(string, int)>, d: string, x: int)
    requires ClavesUnicas(t)
    ensures ClavesUnicas(Acumular(t, d, x))
  {
    var r := Acumular(t, d, x);
    forall i, j | 0 <= i < j < |r| ensures r[i].0 != r[j].0 {
      assert Claves(r)[i] == r[i].0 && Claves(r)[j] == r[j].0;
      if j < |t| {
        assert Claves(t)[i] == t[i].0 && Claves(t)[j] == t[j].0;
      } else {
        assert Claves(t)[i] == t[i].0;
      }
    }
  }

  /**
   * `for (h of hs) { if (!t[key(h)]) t[key(h)] = 0; t[key(h)] += hours(h) }`:
   * each block's hours added under its key, in block order, starting from `t0`.
   */
  function Tabular(t0: seq<(string, int)>, hs: seq<Horario>, key: Horario -> string): (t: seq<(string, int)>)
    requires ClavesUnicas(t0)
    ensures ClavesUnicas(t)
  {
    if hs == [] then t0
    else
      var t := Tabular(t0, hs[..|hs| - 1], key);
      AcumularUnicas(t, key(hs[|hs| - 1]), Duracion(hs[|hs| - 1]));
      Acumular(t, key(hs[|hs| - 1]), Duracion(hs[|hs| - 1]))
  }

  /** The keys the blocks carry. */
  function ClavesDe(hs: seq<Horario>, key: Horario -> string): set<string> {
    set k | 0 <= k < |hs| :: key(hs[k])
  }

  /** The keys a table lists. */
  function ClavesTabla(t: seq<(string, int)>): set<string> {
    if t == [] then {} else {t[0].0} + ClavesTabla(t[1..])
  }

  /**
   * Each key's value grows by the hours of the blocks with that key, and the
   * table's sum by the hours of all blocks.
   */
  lemma {:induction false} TabularValor(t0: seq<(string, int)>, hs: seq<Horario>, key: Horario -> string)
    requires ClavesUnicas(t0)
    ensures forall d :: Valor(Tabular(t0, hs, key), d) == Valor(t0, d) + TotalHoras(Having(hs, key, d))
    ensures SumaValores(Tabular(t0, hs, key)) == SumaValores(t0) + TotalHoras(hs)
  {
    if hs != [] {
      var n := |hs| - 1;
      var ini := hs[..n];
      var h := hs[n];
      assert hs == ini + [h];
      TabularValor(t0, ini, key);
      AcumularValor(Tabular(t0, ini, key), key(h), Duracion(h));
      SumOfConcat(ini, [h], Duracion);
      forall d ensures Valor(Tabular(t0, hs, key), d) == Valor(t0, d) + TotalHoras(Having(hs, key, d)) {
        HavingConcat(ini, [h], key, d);
        SumOfConcat(Having(ini, key, d), Having([h], key, d), Duracion);
      }
    }
  }

  /** Adding under a key lists that key and keeps every other. */
  lemma {:induction false} AcumularClaves(t: seq<(string, int)>, d: string, x: int)
    ensures ClavesTabla(Acumular(t, d, x)) == ClavesTabla(t) + {d}
  {
    if t != [] && t[0].0 != d {
      AcumularClaves(t[1..], d, x);
    }
  }

  /** The table lists exactly the starting keys and the keys the blocks carry. */
  lemma {:induction false} TabularClaves(t0: seq<(string, int)>, hs: seq<Horario>, key: Horario -> string)
    requires ClavesUnicas(t0)
    ensures ClavesTabla(Tabular(t0, hs, key)) == ClavesTabla(t0) + ClavesDe(hs, key)
  {
    if hs != [] {
      var n := |hs| - 1;
      var ini := hs[..n];
      var h := hs[n];
      TabularClaves(t0, ini, key);
      AcumularClaves(Tabular(t0, ini, key), key(h), Duracion(h));
      ClavesDeSnoc(hs, key);
    }
  }

  /** The keys of some blocks are the keys of all but the last, plus the last one's. */
  lemma ClavesDeSnoc(hs: seq<Horario>, key: Horario -> string)
    requires hs != []
    ensures ClavesDe(hs, key) == ClavesDe(hs[..|hs| - 1], key) + {key(hs[|hs| - 1])}
  {
    var ini := hs[..|hs| - 1];
    assert forall k :: 0 <= k < |ini| ==> hs[k] == ini[k];
  }

  /** `horasPorDia`: each block's hours added under its day, in block order. */
  function HorasPorDia(hs: seq<Horario>): seq<(string, int)> {
    Tabular([], hs, Dia)
  }

  /** `getCargaHoraria`: the first record holding the id, with its hours per day, total and headroom. */
  function GetCargaHoraria(store: seq<Profesor>, profesorId: string): (r: Result<Carga>)
    ensures Buscar(store, profesorId).None? <==> r.Err?
    ensures r.Err? ==> r.msg == "Profesor no encontrado"
    ensures r.Ok? ==>
      var p := store[Buscar(store, profesorId).value];
      && r.value.profesor == p
      && r.value.totalHoras == TotalHoras(p.horarios)
      && r.value.maxHorasClase == Cap(p)
      && r.value.maxHorasTotales == Or(p.maxHorasTotales, 40)
      && r.value.disponible == Cap(p) - TotalHoras(p.horarios)
      && r.value.horasPorDia == HorasPorDia(p.horarios)
  {
    match Buscar(store, profesorId)
    case None => Err("Profesor no encontrado")
    case Some(i) =>
      var p := store[i];
      var total := TotalHoras(p.horarios);
      Ok(Carga(p, HorasPorDia(p.horarios), total, Cap(p), Or(p.maxHorasTotales, 40), Cap(p) - total))
  }

  /** The reported total is the sum of the day table, and each day's entry is that day's hours. */
  lemma CargaHorariaSpec(store: seq<Profesor>, profesorId: string)
    ensures var r := GetCargaHoraria(store, profesorId);
      r.Ok? ==>
        && SumaValores(r.value.horasPorDia) == r.value.totalHoras
        && (forall d :: Valor(r.value.horasPorDia, d) == TotalHoras(Having(r.value.profesor.horarios, Dia, d)))
        && ClavesTabla(r.value.horasPorDia) == ClavesDe(r.value.profesor.horarios, Dia)
        && ClavesUnicas(r.value.horasPorDia)
  {
    var r := GetCargaHoraria(store, profesorId);
    if r.Ok? {
      TabularValor([], r.value.profesor.horarios, Dia);
      TabularClaves([], r.value.profesor.horarios, Dia);
    }
  }

  /** A freshly created professor has no load and the full class-hours cap free. */
  lemma CargaTrasCreate(store: seq<Profesor>, datos: DatosProfesor, id: string, ahora: string)
    requires forall i :: 0 <= i < |store| ==> store[i].id != id
    ensures var c := Create(store, datos, id, ahora);
      c.Ok? ==>
        var carga := GetCargaHoraria(c.value.0, id);
        && carga.Ok?
        && carga.value.totalHoras == 0
        && carga.value.disponible == TIPOS_PROFESOR[c.value.1.tipo].horasClase
  {
    var c := Create(store, datos, id, ahora);
    if c.Ok? {
      IndexOfAppended(store, c.value.1, Id);
    }
  }

  // ---------------------------------------------------------------- conflicts

  /** An existing block on the proposed block's day that overlaps it. */
  predicate Choca(h: Horario, b: Bloque) {
    h.dia == b.dia && Solapa(b.horaInicio, b.horaFin, h.horaInicio, h.horaFin)
  }

  /** One `conflicto_horario` per clashing block, in block order. */
  function ConflictosHorario(hs: seq<Horario>, b: Bloque): seq<Conflicto> {
    if hs == [] then []
    else (if Choca(hs[0], b) then [ConflictoHorario(hs[0])] else []) + ConflictosHorario(hs[1..], b)
  }

  /** Exactly the clashing blocks are reported, each as a `conflicto_horario`. */
  lemma {:induction false} ConflictosHorarioSpec(hs: seq<Horario>, b: Bloque)
    ensures var cs := ConflictosHorario(hs, b);
      && |cs| <= |hs|
      && (forall i :: 0 <= i < |cs| ==> cs[i].ConflictoHorario? && cs[i].horarioExistente in hs && Choca(cs[i].horarioExistente, b))
      && (forall k :: 0 <= k < |hs| && Choca(hs[k], b) ==> ConflictoHorario(hs[k]) in cs)
  {
    if hs != [] {
      ConflictosHorarioSpec(hs[1..], b);
      var cs := ConflictosHorario(hs, b);
      var resto := ConflictosHorario(hs[1..], b);
      var cabeza := if Choca(hs[0], b) then [ConflictoHorario(hs[0])] else [];
      assert cs == cabeza + resto;
      forall k | 0 <= k < |hs| && Choca(hs[k], b) ensures ConflictoHorario(hs[k]) in cs {
        if k > 0 {
          assert hs[k] == hs[1..][k - 1];
        }
      }
      forall i | 0 <= i < |cs| ensures cs[i].ConflictoHorario? && cs[i].horarioExistente in hs && Choca(cs[i].horarioExistente, b) {
        if i >= |cabeza| {
          assert cs[i] == resto[i - |cabeza|];
        }
      }
    }
  }

  /**
   * What `checkConflictos` reports for one record: one `conflicto_horario`
   * per same-day overlapping block, then `limite_horas` when the current
   * total plus the new block's hours exceeds the cap.
   */
  function Conflictos(p: Profesor, b: Bloque): seq<Conflicto> {
    var actuales := TotalHoras(p.horarios);
    var nuevas := b.horaFin - b.horaInicio;
    ConflictosHorario(p.horarios, b) + (if actuales + nuevas > Cap(p) then [LimiteHoras(actuales, nuevas, Cap(p))] else [])
  }

  /**
   * Every same-day overlapping block is reported and nothing else is
   * reported as one; the limit is reported exactly when the total plus the
   * new hours exceeds the cap.
   */
  lemma ConflictosSpec(p: Profesor, b: Bloque)
    ensures var r := Conflictos(p, b);
      var nuevas := b.horaFin - b.horaInicio;
      && (forall h :: h in p.horarios && Choca(h, b) ==> ConflictoHorario(h) in r)
      && (forall i :: 0 <= i < |r| && r[i].ConflictoHorario? ==>
            r[i].horarioExistente in p.horarios && Choca(r[i].horarioExistente, b))
      && (LimiteHoras(TotalHoras(p.horarios), nuevas, Cap(p)) in r <==> TotalHoras(p.horarios) + nuevas > Cap(p))
      && (forall i :: 0 <= i < |r| && r[i].LimiteHoras? ==>
            r[i] == LimiteHoras(TotalHoras(p.horarios), nuevas, Cap(p)))
  {
    var cs := ConflictosHorario(p.horarios, b);
    ConflictosHorarioSpec(p.horarios, b);
    var r := Conflictos(p, b);
    assert forall k :: 0 <= k < |cs| ==> r[k] == cs[k];
    assert forall k :: 0 <= k < |p.horarios| && Choca(p.horarios[k], b) ==> ConflictoHorario(p.horarios[k]) in r;
  }

  /** `checkConflictos`: the conflicts of the first record holding the id. */
  function CheckConflictos(store: seq<Profesor>, profesorId: string, b: Bloque): (r: Result<seq<Conflicto>>)
    ensures Buscar(store, profesorId).None? <==> r.Err?
    ensures r.Err? ==> r.msg == "Profesor no encontrado"
    ensures r.Ok? ==> r.value == Conflictos(store[Buscar(store, profesorId).value], b)
  {
    match Buscar(store, profesorId)
    case None => Err("Profesor no encontrado")
    case Some(i) => Ok(Conflictos(store[i], b))
  }

  /** No two same-day blocks of the list overlap. */
  predicate SinSolapes(hs: seq<Horario>) {
    forall i, j :: 0 <= i < j < |hs| && hs[i].dia == hs[j].dia
      ==> !Solapa(hs[i].horaInicio, hs[i].horaFin, hs[j].horaInicio, hs[j].horaFin)
  }

  /**
   * A block the check passes (no conflicts) keeps a conflict-free record
   * conflict-free and within the cap once it is appended.
   */
  lemma SinConflictosConHorario(p: Profesor, datos: DatosHorario, id: string, ahora: string)
    requires Conflictos(p, BloqueDe(datos)) == []
    requires SinSolapes(p.horarios)
    ensures var p' := ConHorario(p, NuevoHorario(datos, id, ahora));
      && SinSolapes(p'.horarios)
      && TotalHoras(p'.horarios) <= Cap(p')
  {
    var b := BloqueDe(datos);
    var h := NuevoHorario(datos, id, ahora);
    var hs' := p.horarios + [h];
    ConflictosSpec(p, b);
    SumOfConcat(p.horarios, [h], Duracion);
    assert [h][1..] == [];
    forall a, c | 0 <= a < c < |hs'| && hs'[a].dia == hs'[c].dia
      ensures !Solapa(hs'[a].horaInicio, hs'[a].horaFin, hs'[c].horaInicio, hs'[c].horaFin)
    {
      if c == |p.horarios| {
        assert hs'[a] == p.horarios[a];
        assert !Choca(p.horarios[a], b);
      } else {
        assert hs'[a] == p.horarios[a] && hs'[c] == p.horarios[c];
      }
    }
  }

  /** The same through the store: a block `checkConflictos` passes leaves its professor conflict-free and within the cap. */
  lemma SinConflictosAddHorario(store: seq<Profesor>, profesorId: string, datos: DatosHorario, id: string, ahora: string)
    requires Buscar(store, profesorId).Some?
    requires CheckConflictos(store, profesorId, BloqueDe(datos)) == Ok([])
    requires SinSolapes(store[Buscar(store, profesorId).value].horarios)
    ensures var added := AddHorario(store, profesorId, datos, id, ahora);
      var p' := added.value.0[Buscar(store, profesorId).value];
      && SinSolapes(p'.horarios)
      && TotalHoras(p'.horarios) <= Cap(p')
  {
    SinConflictosConHorario(store[Buscar(store, profesorId).value], datos, id, ahora);
  }
}
