/**
 * The pure parts of the schedule controller: the day-by-hour grid of the
 * full schedule, the input guards in front of the suggested-schedule
 * computation, and clearing every professor's blocks.
 */
module HorariosController {
  import opened Wrappers
  import P = Profesores
  import M = Materias
  import I = HorariosInforme
  import H = Horarios

  // ---------------------------------------------------------------- organizarHorariosPorDia

  /** The grid's first and last hour rows: 7:00 to 20:00. */
  const PRIMERA_FILA: int := 7
  const ULTIMA_FILA: int := 20

  /** A cell of the grid exists for each of the six days and each hour row. */
  predicate EnGrilla(dia: string, hora: int) {
    dia in H.DIAS && PRIMERA_FILA <= hora <= ULTIMA_FILA
  }

  /** A block shown in a cell, with its professor. */
  datatype Celda = Celda(profesor: P.Profesor, horario: P.Horario)

  type Grilla = map<(string, int), seq<Celda>>

  /** The grid before any block is placed: every cell exists and is empty. */
  function GrillaVacia(): (g: Grilla)
    ensures forall k :: k in g <==> EnGrilla(k.0, k.1)
    ensures forall k :: k in g ==> g[k] == []
  {
    map dia, hora | dia in H.DIAS && PRIMERA_FILA <= hora <= ULTIMA_FILA :: (dia, hora) := []
  }

  /** The hour loop of one block: from `hora` up to the block's end, the block is appended to each existing cell of its day. */
  function Marcar(g: Grilla, c: Celda, hora: int): Grilla
    decreases c.horario.horaFin - hora
  {
    if hora >= c.horario.horaFin then g
    else
      var k := (c.horario.dia, hora);
      Marcar(if k in g then g[k := g[k] + [c]] else g, c, hora + 1)
  }

  /** One professor's blocks, in order. */
  function PorHorarios(g: Grilla, p: P.Profesor, hs: seq<P.Horario>): Grilla
    decreases |hs|
  {
    if hs == [] then g else PorHorarios(Marcar(g, Celda(p, hs[0]), hs[0].horaInicio), p, hs[1..])
  }

  /** Every professor's blocks, professors in order. */
  function PorProfesores(g: Grilla, ps: seq<P.Profesor>): Grilla
    decreases |ps|
  {
    if ps == [] then g else PorProfesores(PorHorarios(g, ps[0], ps[0].horarios), ps[1..])
  }

  /** `organizarHorariosPorDia`: the empty grid filled with every professor's blocks. */
  function OrganizarHorariosPorDia(ps: seq<P.Profesor>): Grilla {
    PorProfesores(GrillaVacia(), ps)
  }

  /** The reference reading of a cell: the blocks of one professor covering it, in order. */
  function CeldasDe(p: P.Profesor, hs: seq<P.Horario>, k: (string, int)): seq<Celda>
    decreases |hs|
  {
    if hs == [] then []
    else (if H.Cubre(hs[0], k.0, k.1) then [Celda(p, hs[0])] else []) + CeldasDe(p, hs[1..], k)
  }

  /** The reference reading of a cell: every professor's covering blocks, professors in order. */
  function Contenido(ps: seq<P.Profesor>, k: (string, int)): seq<Celda>
    decreases |ps|
  {
    if ps == [] then [] else CeldasDe(ps[0], ps[0].horarios, k) + Contenido(ps[1..], k)
  }

  /** The hour loop keeps the cells and appends the block to exactly the cells of its day from `hora` to its end. */
  lemma {:induction false} MarcarSpec(g: Grilla, c: Celda, hora: int)
    ensures Marcar(g, c, hora).Keys == g.Keys
    ensures forall k :: k in g ==>
      Marcar(g, c, hora)[k] == g[k] + (if k.0 == c.horario.dia && hora <= k.1 < c.horario.horaFin then [c] else [])
    decreases c.horario.horaFin - hora
  {
    if hora < c.horario.horaFin {
      var k0 := (c.horario.dia, hora);
      var g1 := if k0 in g then g[k0 := g[k0] + [c]] else g;
      MarcarSpec(g1, c, hora + 1);
    }
  }

  /** One professor's blocks keep the cells and append, to each cell, that professor's covering blocks. */
  lemma {:induction false} PorHorariosSpec(g: Grilla, p: P.Profesor, hs: seq<P.Horario>)
    ensures PorHorarios(g, p, hs).Keys == g.Keys
    ensures forall k :: k in g ==> PorHorarios(g, p, hs)[k] == g[k] + CeldasDe(p, hs, k)
    decreases |hs|
  {
    if hs != [] {
      var g1 := Marcar(g, Celda(p, hs[0]), hs[0].horaInicio);
      MarcarSpec(g, Celda(p, hs[0]), hs[0].horaInicio);
      PorHorariosSpec(g1, p, hs[1..]);
    }
  }

  /** Every professor's blocks keep the cells and append each cell's reference content. */
  lemma {:induction false} PorProfesoresSpec(g: Grilla, ps: seq<P.Profesor>)
    ensures PorProfesores(g, ps).Keys == g.Keys
    ensures forall k :: k in g ==> PorProfesores(g, ps)[k] == g[k] + Contenido(ps, k)
    decreases |ps|
  {
    if ps != [] {
      var g1 := PorHorarios(g, ps[0], ps[0].horarios);
      PorHorariosSpec(g, ps[0], ps[0].horarios);
      PorProfesoresSpec(g1, ps[1..]);
    }
  }

  /**
   * The grid has exactly the six days by hours 7 to 20, and each cell holds
   * the blocks covering it, professors in order and each professor's blocks
   * in order; a block on another day or at other hours appears nowhere.
   */
  lemma OrganizarHorariosPorDiaSpec(ps: seq<P.Profesor>)
    ensures forall k :: k in OrganizarHorariosPorDia(ps) <==> EnGrilla(k.0, k.1)
    ensures forall k :: k in OrganizarHorariosPorDia(ps) ==> OrganizarHorariosPorDia(ps)[k] == Contenido(ps, k)
  {
    PorProfesoresSpec(GrillaVacia(), ps);
  }

  /** A cell's reference content is exactly the covering blocks of one professor's list. */
  lemma {:induction false} CeldasDeSpec(p: P.Profesor, hs: seq<P.Horario>, k: (string, int))
    ensures forall c :: c in CeldasDe(p, hs, k) <==> c.profesor == p && c.horario in hs && H.Cubre(c.horario, k.0, k.1)
    decreases |hs|
  {
    if hs != [] {
      CeldasDeSpec(p, hs[1..], k);
      assert hs == [hs[0]] + hs[1..];
    }
  }

  /** A cell's reference content is exactly the blocks of the listed professors covering it. */
  lemma {:induction false} ContenidoSpec(ps: seq<P.Profesor>, k: (string, int))
    ensures forall c :: c in Contenido(ps, k) <==>
      c.profesor in ps && c.horario in c.profesor.horarios && H.Cubre(c.horario, k.0, k.1)
    decreases |ps|
  {
    if ps != [] {
      CeldasDeSpec(ps[0], ps[0].horarios, k);
      ContenidoSpec(ps[1..], k);
      assert ps == [ps[0]] + ps[1..];
    }
  }

  // ---------------------------------------------------------------- calcular

  const SIN_MATERIAS: string := "Debe seleccionar al menos una materia"
  const SIN_PROFESOR: string := "Debe seleccionar al menos un profesor"

  /** What `calcular` renders: the form again with an error, the suggestion, or the error page. */
  datatype Pagina =
    | Formulario(error: string)
    | Resultado(horarioSugerido: H.HorarioSugerido, materiasSeleccionadas: seq<string>, profesoresSeleccionados: seq<string>)
    | PaginaError(message: string)

  /** The page with the store and id counter after the request. */
  datatype Respuesta = Respuesta(store: seq<P.Profesor>, n: nat, pagina: Pagina)

  /** `x || []` on a posted list: a missing list is empty. */
  function Lista(o: Option<seq<string>>): seq<string> {
    if o.Some? then o.value else []
  }

  /**
   * `calcular`: an empty course selection is refused first, then an empty
   * professor selection; otherwise the suggestion is computed on the store.
   */
  function Calcular(store: seq<P.Profesor>, n: nat, e: H.Entorno, materias: seq<M.Materia>,
                    materiasPost: Option<seq<string>>, profesoresPost: Option<seq<string>>): Respuesta
  {
    var materiasIds := Lista(materiasPost);
    var profesoresIds := Lista(profesoresPost);
    if |materiasIds| == 0 then Respuesta(store, n, Formulario(SIN_MATERIAS))
    else if |profesoresIds| == 0 then Respuesta(store, n, Formulario(SIN_PROFESOR))
    else
      match H.CalcularHorarioSugerido(store, n, e, materias, materiasIds, profesoresIds)
      case Err(msg) => Respuesta(store, n, PaginaError("Error al calcular horario: " + msg))
      case Ok(s) => Respuesta(s.store, s.n, Resultado(s.horario, materiasIds, profesoresIds))
  }

  /**
   * The guards of `calcular`, in order, leave the store alone; past them the
   * request always renders the suggestion the builder computes, never the
   * error page.
   */
  lemma CalcularGuardas(store: seq<P.Profesor>, n: nat, e: H.Entorno, materias: seq<M.Materia>,
                        materiasPost: Option<seq<string>>, profesoresPost: Option<seq<string>>)
    ensures Lista(materiasPost) == [] ==>
      Calcular(store, n, e, materias, materiasPost, profesoresPost) == Respuesta(store, n, Formulario(SIN_MATERIAS))
    ensures Lista(materiasPost) != [] && Lista(profesoresPost) == [] ==>
      Calcular(store, n, e, materias, materiasPost, profesoresPost) == Respuesta(store, n, Formulario(SIN_PROFESOR))
    ensures Lista(materiasPost) != [] && Lista(profesoresPost) != [] ==>
      var s := H.CalcularHorarioSugerido(store, n, e, materias, Lista(materiasPost), Lista(profesoresPost));
      && s.Ok?
      && Calcular(store, n, e, materias, materiasPost, profesoresPost)
         == Respuesta(s.value.store, s.value.n, Resultado(s.value.horario, Lista(materiasPost), Lista(profesoresPost)))
  {
    H.CalcularHorarioSugeridoCompleto(store, n, e, materias, Lista(materiasPost), Lista(profesoresPost));
  }

  // ---------------------------------------------------------------- limpiar

  /** `limpiar`: every professor's blocks are cleared, and nothing else changes. */
  function Limpiar(store: seq<P.Profesor>): (r: seq<P.Profesor>)
    decreases |store|
  {
    if store == [] then [] else [store[0].(horarios := [])] + Limpiar(store[1..])
  }

  /** Clearing keeps every record in place with its fields, except that its blocks are gone. */
  lemma {:induction false} LimpiarSpec(store: seq<P.Profesor>)
    ensures |Limpiar(store)| == |store|
    ensures forall i :: 0 <= i < |store| ==> Limpiar(store)[i] == store[i].(horarios := [])
    decreases |store|
  {
    if store != [] {
      LimpiarSpec(store[1..]);
      assert forall i :: 0 < i < |store| ==> Limpiar(store)[i] == Limpiar(store[1..])[i - 1];
    }
  }

  /** Clearing twice is clearing once. */
  lemma LimpiarIdempotente(store: seq<P.Profesor>)
    ensures Limpiar(Limpiar(store)) == Limpiar(store)
  {
    LimpiarSpec(store);
    LimpiarSpec(Limpiar(store));
  }

  /** After clearing, the ids are the same, no course has an hour counted and validation finds no overlap. */
  lemma LimpiarSinHoras(store: seq<P.Profesor>, materiaId: string)
    ensures P.Ids(Limpiar(store)) == P.Ids(store)
    ensures I.ContarHorasPorMateria(Limpiar(store), materiaId) == 0
    ensures I.SinConflictos(I.ValidarHorarioCompleto(Limpiar(store)))
  {
    LimpiarSpec(store);
    var r := Limpiar(store);
    I.ContarHorasSpec(r, materiaId);
    VaciosSinBloques(r);
    I.ValidarSinSolapes(r, r);
  }

  /** Records without blocks contribute no blocks. */
  lemma {:induction false} VaciosSinBloques(store: seq<P.Profesor>)
    requires forall i :: 0 <= i < |store| ==> store[i].horarios == []
    ensures I.Bloques(store) == []
    decreases |store|
  {
    if store != [] {
      VaciosSinBloques(store[1..]);
    }
  }
}
