/**
 * Students: registration with unique `matricula` and `email`, lookup, paging, the field-by-field
 * update and deletion.
 */
module AlumnoService {
  import opened Wrappers
  import opened Tables
  import opened Models
  import Text

  const MatriculaRegistrada := "La matrícula ya está registrada"
  const EmailRegistrado := "El email ya está registrado"
  const ErrorActualizar := "Error al actualizar el alumno"
  const AlumnoEliminado := "Alumno eliminado correctamente"

  /** The 404 detail `get_alumno` formats for a missing id. */
  function NoEncontrado(alumnoId: int): (detail: string)
    ensures |detail| > 28 && detail[..14] == "Alumno con id " && detail[|detail| - 14..] == " no encontrado"
  {
    "Alumno con id " + Text.IntToString(alumnoId) + " no encontrado"
  }

  /** The 404 detail names the id: two different ids never produce the same message. */
  lemma NoEncontradoInjective(i: int, j: int)
    requires i != j
    ensures NoEncontrado(i) != NoEncontrado(j)
  {
    var a, b := NoEncontrado(i), NoEncontrado(j);
    assert a[14..|a| - 14] == Text.IntToString(i);
    assert b[14..|b| - 14] == Text.IntToString(j);
    Text.IntToStringInjective(i, j);
  }

  /** Whether another student than `alumnoId` already holds the `matricula` or the `email` of `alumno`. */
  predicate Choca(rows: seq<Alumno>, alumnoId: int, alumno: AlumnoData) {
    exists x :: x in rows && x.id != alumnoId && (x.data.matricula == alumno.matricula || x.data.email == alumno.email)
  }

  /** Registers a student, rejecting a taken `matricula` first and a taken `email` second. */
  method CreateAlumno(db: Db, alumno: AlumnoData) returns (r: Result<Alumno>)
    requires db.Valid()
    modifies db`alumnos, db`nextAlumnoId
    ensures db.Valid()
    ensures MatriculaTaken(old(db.alumnos), alumno.matricula) ==> r == Err(HttpException(400, MatriculaRegistrada))
    ensures !MatriculaTaken(old(db.alumnos), alumno.matricula) && AlumnoEmailTaken(old(db.alumnos), alumno.email)
            ==> r == Err(HttpException(400, EmailRegistrado))
    ensures r.Ok? <==> !MatriculaTaken(old(db.alumnos), alumno.matricula) && !AlumnoEmailTaken(old(db.alumnos), alumno.email)
    ensures r.Ok? ==> r.value == Row(old(db.nextAlumnoId), alumno)
                      && db.alumnos == old(db.alumnos) + [r.value]
                      && db.nextAlumnoId == old(db.nextAlumnoId) + 1
                      && GetAlumno(db.alumnos, r.value.id) == Ok(r.value)
    ensures r.Err? ==> db.alumnos == old(db.alumnos) && db.nextAlumnoId == old(db.nextAlumnoId)
  {
    if MatriculaTaken(db.alumnos, alumno.matricula) {
      return Err(HttpException(400, MatriculaRegistrada));
    }
    if AlumnoEmailTaken(db.alumnos, alumno.email) {
      return Err(HttpException(400, EmailRegistrado));
    }
    var row := Row(db.nextAlumnoId, alumno);
    AppendAlumnoValid(db.alumnos, db.nextAlumnoId, row);
    db.alumnos := db.alumnos + [row];
    db.nextAlumnoId := db.nextAlumnoId + 1;
    r := Ok(row);
  }

  /** Inserting a student whose `matricula` and `email` are free keeps the student table valid. */
  lemma AppendAlumnoValid(rows: seq<Alumno>, next: int, row: Alumno)
    requires AlumnosValid(rows, next) && row.id == next
    requires !MatriculaTaken(rows, row.data.matricula) && !AlumnoEmailTaken(rows, row.data.email)
    ensures AlumnosValid(rows + [row], next + 1)
  {
    AppendKeepsKeys(rows, next, row);
  }

  /** `.offset(skip).limit(limit)` over the students. */
  function GetAlumnos(rows: seq<Alumno>, skip: nat, limit: nat): (page: seq<Alumno>)
    ensures |page| <= limit
    ensures |page| == if skip >= |rows| then 0 else Min(limit, |rows| - skip)
    ensures forall i :: 0 <= i < |page| ==> page[i] == rows[skip + i]
  {
    Paginate(rows, skip, limit)
  }

  /** The student with key `alumnoId`, or 404 naming the id. */
  function GetAlumno(rows: seq<Alumno>, alumnoId: int): (r: Result<Alumno>)
    ensures r.Err? <==> forall x :: x in rows ==> x.id != alumnoId
    ensures r.Err? ==> r.error == HttpException(404, NoEncontrado(alumnoId))
    ensures r.Ok? ==> r.value in rows && r.value.id == alumnoId
    ensures UniqueKeys(rows) ==> forall x :: x in rows && x.id == alumnoId ==> r == Ok(x)
  {
    match FindById(rows, alumnoId)
    case None => Err(HttpException(404, NoEncontrado(alumnoId)))
    case Some(alumno) => Ok(alumno)
  }

  /** One `setattr(db_alumno, key, value)` of the update loop: a column and the value written to it. */
  datatype Campo = Nombre(nombre: string) | Apellido(apellido: string) | Matricula(matricula: string) | Email(email: string)

  /** `alumno.dict().items()`: every column of the payload, in declaration order. */
  function Items(alumno: AlumnoData): (items: seq<Campo>)
    ensures |items| == 4
    ensures forall i :: 0 <= i < |items| ==> items[i] == Current(alumno, items[i])
    ensures forall i, j :: 0 <= i < j < |items| ==> !SameColumn(items[i], items[j])
  {
    [Nombre(alumno.nombre), Apellido(alumno.apellido), Matricula(alumno.matricula), Email(alumno.email)]
  }

  /** The record after one `setattr`. */
  function SetAttr(a: AlumnoData, c: Campo): (r: AlumnoData)
    ensures Current(r, c) == c
    ensures forall d :: !SameColumn(d, c) ==> Current(r, d) == Current(a, d)
  {
    match c
    case Nombre(v) => a.(nombre := v)
    case Apellido(v) => a.(apellido := v)
    case Matricula(v) => a.(matricula := v)
    case Email(v) => a.(email := v)
  }

  /** Whether two assignments write the same column. */
  predicate SameColumn(c: Campo, d: Campo) {
    (c.Nombre? && d.Nombre?) || (c.Apellido? && d.Apellido?) || (c.Matricula? && d.Matricula?) || (c.Email? && d.Email?)
  }

  /** The column `c` names, read from `a`, as an assignment of its current value. */
  function Current(a: AlumnoData, c: Campo): (r: Campo)
    ensures SameColumn(r, c)
  {
    match c
    case Nombre(_) => Nombre(a.nombre)
    case Apellido(_) => Apellido(a.apellido)
    case Matricula(_) => Matricula(a.matricula)
    case Email(_) => Email(a.email)
  }

  /** The record after the assignments in order, the last one applied last. */
  function Assign(a: AlumnoData, items: seq<Campo>): AlumnoData {
    if items == [] then a else SetAttr(Assign(a, items[..|items| - 1]), items[|items| - 1])
  }

  /** The `setattr` loop of `update_alumno`: applies the assignments one after another. */
  method SetAttrs(alumno: AlumnoData, items: seq<Campo>) returns (r: AlumnoData)
    ensures r == Assign(alumno, items)
  {
    r := alumno;
    var i := 0;
    while i < |items|
      invariant 0 <= i <= |items|
      invariant r == Assign(alumno, items[..i])
    {
      assert items[..i + 1][..i] == items[..i];
      r := SetAttr(r, items[i]);
      i := i + 1;
    }
    assert items[..|items|] == items;
  }

  /** A column no assignment writes keeps its value. */
  lemma {:induction false} AssignUntouched(a: AlumnoData, items: seq<Campo>, c: Campo)
    requires forall i :: 0 <= i < |items| ==> !SameColumn(items[i], c)
    ensures Current(Assign(a, items), c) == Current(a, c)
  {
    if items != [] {
      AssignUntouched(a, items[..|items| - 1], c);
    }
  }

  /** A column ends up with the value of the last assignment to it. */
  lemma {:induction false} AssignLastWins(a: AlumnoData, pre: seq<Campo>, c: Campo, post: seq<Campo>)
    requires forall i :: 0 <= i < |post| ==> !SameColumn(post[i], c)
    ensures Current(Assign(a, pre + [c] + post), c) == c
  {
    if post == [] {
      assert pre + [c] + post == pre + [c];
      assert (pre + [c])[..|pre|] == pre;
    } else {
      var items := pre + [c] + post;
      assert items[..|items| - 1] == pre + [c] + post[..|post| - 1];
      AssignLastWins(a, pre, c, post[..|post| - 1]);
    }
  }

  /** Applying every column of a payload makes the record equal to the payload. */
  lemma AssignFull(a: AlumnoData, alumno: AlumnoData)
    ensures Assign(a, Items(alumno)) == alumno
  {
    var items := Items(alumno);
    assert items[..3][..2] == items[..2] && items[..2][..1] == items[..1] && items[..1][..0] == [];
    assert Assign(a, items[..1]) == a.(nombre := alumno.nombre);
    assert Assign(a, items[..2]) == a.(nombre := alumno.nombre, apellido := alumno.apellido);
    assert Assign(a, items[..3]) == alumno.(email := a.email);
  }

  /**
   * Overwrites every column of student `alumnoId` with the payload. The lookup is `get_alumno`,
   * so a missing id yields its 404; a commit that would give another student the same
   * `matricula` or `email` is rolled back with 400.
   */
  method UpdateAlumno(db: Db, alumnoId: int, alumno: AlumnoData) returns (r: Result<Alumno>)
    requires db.Valid()
    modifies db`alumnos
    ensures db.Valid()
    ensures FindById(old(db.alumnos), alumnoId).None? ==> r == Err(HttpException(404, NoEncontrado(alumnoId)))
    ensures FindById(old(db.alumnos), alumnoId).Some? && Choca(old(db.alumnos), alumnoId, alumno)
            ==> r == Err(HttpException(400, ErrorActualizar))
    ensures r.Ok? <==> FindById(old(db.alumnos), alumnoId).Some? && !Choca(old(db.alumnos), alumnoId, alumno)
    ensures r.Ok? ==> r.value == Row(alumnoId, alumno) && GetAlumno(db.alumnos, alumnoId) == Ok(r.value)
    ensures r.Ok? ==> |db.alumnos| == |old(db.alumnos)|
                      && forall i :: 0 <= i < |db.alumnos| ==>
                           db.alumnos[i] == if old(db.alumnos[i]).id == alumnoId then r.value else old(db.alumnos[i])
    ensures r.Err? ==> db.alumnos == old(db.alumnos)
  {
    var found := GetAlumno(db.alumnos, alumnoId);
    if found.Err? {
      return Err(found.error);
    }
    var nuevo := SetAttrs(found.value.data, Items(alumno));
    AssignFull(found.value.data, alumno);
    if Choca(db.alumnos, alumnoId, nuevo) {
      return Err(HttpException(400, ErrorActualizar));
    }
    var k := IndexOfKey(db.alumnos, alumnoId);
    var row := Row(alumnoId, nuevo);
    Rewrite(db, k.value, row);
    r := Ok(row);
  }

  /** The commit of the rewritten row at position `k`, which keeps its key. */
  method Rewrite(db: Db, k: nat, row: Alumno)
    requires db.Valid() && k < |db.alumnos| && db.alumnos[k].id == row.id
    requires !Choca(db.alumnos, row.id, row.data)
    modifies db`alumnos
    ensures db.Valid()
    ensures db.alumnos == ReplaceRow(old(db.alumnos), k, row)
  {
    ReplaceAlumnoValid(db.alumnos, db.nextAlumnoId, k, row);
    db.alumnos := ReplaceRow(db.alumnos, k, row);
  }

  /** Rewriting a student's columns to values no other student holds keeps the student table valid. */
  lemma ReplaceAlumnoValid(rows: seq<Alumno>, next: int, k: nat, row: Alumno)
    requires AlumnosValid(rows, next) && k < |rows| && rows[k].id == row.id
    requires !Choca(rows, row.id, row.data)
    ensures AlumnosValid(ReplaceRow(rows, k, row), next)
  {
    assert rows[k] in rows;
  }

  /** Deletes student `alumnoId`; a missing id yields the 404 of `get_alumno`. */
  method DeleteAlumno(db: Db, alumnoId: int) returns (r: Result<string>)
    requires db.Valid()
    modifies db`alumnos
    ensures db.Valid()
    ensures r.Err? <==> FindById(old(db.alumnos), alumnoId).None?
    ensures r.Err? ==> r.error == HttpException(404, NoEncontrado(alumnoId)) && db.alumnos == old(db.alumnos)
    ensures r.Ok? ==> r.value == AlumnoEliminado && db.alumnos == DeleteById(old(db.alumnos), alumnoId)
                      && |db.alumnos| == |old(db.alumnos)| - 1 && GetAlumno(db.alumnos, alumnoId).Err?
    ensures forall x :: x in db.alumnos <==> x in old(db.alumnos) && x.id != alumnoId
  {
    var found := GetAlumno(db.alumnos, alumnoId);
    if found.Err? {
      return Err(found.error);
    }
    db.alumnos := DeleteById(db.alumnos, alumnoId);
    r := Ok(AlumnoEliminado);
  }
}
