/**
 * Courses: creation with a unique `codigo`, lookup, paging, the field-by-field update and
 * deletion. Unlike the student service, a clash on the unique column is not checked before the
 * insert: it surfaces when the commit fails, which is rolled back and reported as 400.
 */
module MateriaService {
  import opened Wrappers
  import opened Tables
  import opened Models

  const ErrorCrear := "Error al crear la materia"
  const ErrorActualizar := "Error al actualizar la materia"
  const MateriaEliminada := "Materia eliminada correctamente"

  /** Whether another course than `materiaId` already holds `codigo`. */
  predicate CodigoChoca(rows: seq<Materia>, materiaId: int, codigo: string) {
    exists x :: x in rows && x.id != materiaId && x.data.codigo == codigo
  }

  /** Inserts the course; a commit refused for a taken `codigo` is rolled back with 400. */
  method CreateMateria(db: Db, materia: MateriaData) returns (r: Result<Materia>)
    requires db.Valid()
    modifies db`materias, db`nextMateriaId
    ensures db.Valid()
    ensures r.Err? <==> CodigoTaken(old(db.materias), materia.codigo)
    ensures r.Err? ==> r.error == HttpException(400, ErrorCrear)
                       && db.materias == old(db.materias) && db.nextMateriaId == old(db.nextMateriaId)
    ensures r.Ok? ==> r.value == Row(old(db.nextMateriaId), materia)
                      && db.materias == old(db.materias) + [r.value]
                      && db.nextMateriaId == old(db.nextMateriaId) + 1
                      && GetMateria(db.materias, r.value.id) == Some(r.value)
  {
    if CodigoTaken(db.materias, materia.codigo) {
      return Err(HttpException(400, ErrorCrear));
    }
    var row := Row(db.nextMateriaId, materia);
    AppendMateriaValid(db.materias, db.nextMateriaId, row);
    db.materias := db.materias + [row];
    db.nextMateriaId := db.nextMateriaId + 1;
    r := Ok(row);
  }

  /** Inserting a course whose `codigo` is free keeps the course table valid. */
  lemma AppendMateriaValid(rows: seq<Materia>, next: int, row: Materia)
    requires MateriasValid(rows, next) && row.id == next
    requires !CodigoTaken(rows, row.data.codigo)
    ensures MateriasValid(rows + [row], next + 1)
  {
    AppendKeepsKeys(rows, next, row);
  }

  /** `.offset(skip).limit(limit)` over the courses. */
  function GetMaterias(rows: seq<Materia>, skip: nat, limit: nat): (page: seq<Materia>)
    ensures |page| <= limit
    ensures |page| == if skip >= |rows| then 0 else Min(limit, |rows| - skip)
    ensures forall i :: 0 <= i < |page| ==> page[i] == rows[skip + i]
  {
    Paginate(rows, skip, limit)
  }

  /** The course with key `materiaId`, or nothing: a missing id is not an error here. */
  function GetMateria(rows: seq<Materia>, materiaId: int): (r: Option<Materia>)
    ensures r.None? <==> forall x :: x in rows ==> x.id != materiaId
    ensures r.Some? ==> r.value in rows && r.value.id == materiaId
    ensures UniqueKeys(rows) ==> forall x :: x in rows && x.id == materiaId ==> r == Some(x)
  {
    FindById(rows, materiaId)
  }

  /** One `setattr(db_materia, key, value)` of the update loop: a column and the value written to it. */
  datatype Campo = Nombre(nombre: string) | Codigo(codigo: string) | Creditos(creditos: int)

  /** `materia.dict().items()`: every column of the payload, in declaration order. */
  function Items(materia: MateriaData): (items: seq<Campo>)
    ensures |items| == 3
    ensures forall i :: 0 <= i < |items| ==> items[i] == Current(materia, items[i])
    ensures forall i, j :: 0 <= i < j < |items| ==> !SameColumn(items[i], items[j])
  {
    [Nombre(materia.nombre), Codigo(materia.codigo), Creditos(materia.creditos)]
  }

  /** The record after one `setattr`. */
  function SetAttr(m: MateriaData, c: Campo): (r: MateriaData)
    ensures Current(r, c) == c
    ensures forall d :: !SameColumn(d, c) ==> Current(r, d) == Current(m, d)
  {
    match c
    case Nombre(v) => m.(nombre := v)
    case Codigo(v) => m.(codigo := v)
    case Creditos(v) => m.(creditos := v)
  }

  /** Whether two assignments write the same column. */
  predicate SameColumn(c: Campo, d: Campo) {
    (c.Nombre? && d.Nombre?) || (c.Codigo? && d.Codigo?) || (c.Creditos? && d.Creditos?)
  }

  /** The column `c` names, read from `m`, as an assignment of its current value. */
  function Current(m: MateriaData, c: Campo): (r: Campo)
    ensures SameColumn(r, c)
  {
    match c
    case Nombre(_) => Nombre(m.nombre)
    case Codigo(_) => Codigo(m.codigo)
    case Creditos(_) => Creditos(m.creditos)
  }

  /** The record after the assignments in order, the last one applied last. */
  function Assign(m: MateriaData, items: seq<Campo>): MateriaData {
    if items == [] then m else SetAttr(Assign(m, items[..|items| - 1]), items[|items| - 1])
  }

  /** The `setattr` loop of `update_materia`: applies the assignments one after another. */
  method SetAttrs(materia: MateriaData, items: seq<Campo>) returns (r: MateriaData)
    ensures r == Assign(materia, items)
  {
    r := materia;
    var i := 0;
    while i < |items|
      invariant 0 <= i <= |items|
      invariant r == Assign(materia, items[..i])
    {
      assert items[..i + 1][..i] == items[..i];
      r := SetAttr(r, items[i]);
      i := i + 1;
    }
    assert items[..|items|] == items;
  }

  /** A column no assignment writes keeps its value. */
  lemma {:induction false} AssignUntouched(m: MateriaData, items: seq<Campo>, c: Campo)
    requires forall i :: 0 <= i < |items| ==> !SameColumn(items[i], c)
    ensures Current(Assign(m, items), c) == Current(m, c)
  {
    if items != [] {
      AssignUntouched(m, items[..|items| - 1], c);
    }
  }

  /** A column ends up with the value of the last assignment to it. */
  lemma {:induction false} AssignLastWins(m: MateriaData, pre: seq<Campo>, c: Campo, post: seq<Campo>)
    requires forall i :: 0 <= i < |post| ==> !SameColumn(post[i], c)
    ensures Current(Assign(m, pre + [c] + post), c) == c
  {
    if post == [] {
      assert pre + [c] + post == pre + [c];
      assert (pre + [c])[..|pre|] == pre;
    } else {
      var items := pre + [c] + post;
      assert items[..|items| - 1] == pre + [c] + post[..|post| - 1];
      AssignLastWins(m, pre, c, post[..|post| - 1]);
    }
  }

  /** Applying every column of a payload makes the record equal to the payload. */
  lemma AssignFull(m: MateriaData, materia: MateriaData)
    ensures Assign(m, Items(materia)) == materia
  {
    var items := Items(materia);
    assert items[..2][..1] == items[..1] && items[..1][..0] == [];
    assert Assign(m, items[..1]) == m.(nombre := materia.nombre);
    assert Assign(m, items[..2]) == materia.(creditos := m.creditos);
  }

  /**
   * Overwrites every column of course `materiaId` with the payload: 404 when there is no such
   * course, 400 when the commit is refused because another course holds the new `codigo`.
   */
  method UpdateMateria(db: Db, materiaId: int, materia: MateriaData) returns (r: Result<Materia>)
    requires db.Valid()
    modifies db`materias
    ensures db.Valid()
    ensures GetMateria(old(db.materias), materiaId).None? ==> r == Err(HttpException(404, MateriaNoEncontrada))
    ensures GetMateria(old(db.materias), materiaId).Some? && CodigoChoca(old(db.materias), materiaId, materia.codigo)
            ==> r == Err(HttpException(400, ErrorActualizar))
    ensures r.Ok? <==> GetMateria(old(db.materias), materiaId).Some? && !CodigoChoca(old(db.materias), materiaId, materia.codigo)
    ensures r.Ok? ==> r.value == Row(materiaId, materia) && GetMateria(db.materias, materiaId) == Some(r.value)
    ensures r.Ok? ==> |db.materias| == |old(db.materias)|
                      && forall i :: 0 <= i < |db.materias| ==>
                           db.materias[i] == if old(db.materias[i]).id == materiaId then r.value else old(db.materias[i])
    ensures r.Err? ==> db.materias == old(db.materias)
  {
    var found := GetMateria(db.materias, materiaId);
    if found.None? {
      return Err(HttpException(404, MateriaNoEncontrada));
    }
    var nueva := SetAttrs(found.value.data, Items(materia));
    AssignFull(found.value.data, materia);
    if CodigoChoca(db.materias, materiaId, nueva.codigo) {
      return Err(HttpException(400, ErrorActualizar));
    }
    var k := IndexOfKey(db.materias, materiaId);
    var row := Row(materiaId, nueva);
    Rewrite(db, k.value, row);
    r := Ok(row);
  }

  /** The commit of the rewritten row at position `k`, which keeps its key. */
  method Rewrite(db: Db, k: nat, row: Materia)
    requires db.Valid() && k < |db.materias| && db.materias[k].id == row.id
    requires !CodigoChoca(db.materias, row.id, row.data.codigo)
    modifies db`materias
    ensures db.Valid()
    ensures db.materias == ReplaceRow(old(db.materias), k, row)
  {
    ReplaceMateriaValid(db.materias, db.nextMateriaId, k, row);
    db.materias := ReplaceRow(db.materias, k, row);
  }

  /** Rewriting a course's columns to a `codigo` no other course holds keeps the course table valid. */
  lemma ReplaceMateriaValid(rows: seq<Materia>, next: int, k: nat, row: Materia)
    requires MateriasValid(rows, next) && k < |rows| && rows[k].id == row.id
    requires !CodigoChoca(rows, row.id, row.data.codigo)
    ensures MateriasValid(ReplaceRow(rows, k, row), next)
  {
    assert rows[k] in rows;
  }

  /** Deletes course `materiaId`, or 404 when there is no such course. */
  method DeleteMateria(db: Db, materiaId: int) returns (r: Result<string>)
    requires db.Valid()
    modifies db`materias
    ensures db.Valid()
    ensures r.Err? <==> GetMateria(old(db.materias), materiaId).None?
    ensures r.Err? ==> r.error == HttpException(404, MateriaNoEncontrada) && db.materias == old(db.materias)
    ensures r.Ok? ==> r.value == MateriaEliminada && db.materias == DeleteById(old(db.materias), materiaId)
                      && |db.materias| == |old(db.materias)| - 1 && GetMateria(db.materias, materiaId).None?
    ensures forall x :: x in db.materias <==> x in old(db.materias) && x.id != materiaId
  {
    var found := GetMateria(db.materias, materiaId);
    if found.None? {
      return Err(HttpException(404, MateriaNoEncontrada));
    }
    db.materias := DeleteById(db.materias, materiaId);
    r := Ok(MateriaEliminada);
  }
}
