/**
 * Grades: one score per (student, course) pair, recorded only for an enrolled pair, and the
 * per-student listing and average.
 */
module CalificacionService {
  import opened Wrappers
  import opened Tables
  import opened Models
  import InscripcionService

  const CalificacionExistente := "Ya existe una calificación para este alumno en esta materia"
  const CalificacionNoEncontrada := "Calificación no encontrada"

  /**
   * The checks `create_calificacion` runs before inserting, in order: the student exists, the
   * course exists, the student is enrolled in the course, and the pair has no grade yet.
   */
  function ValidarCalificacion(alumnos: seq<Alumno>, materias: seq<Materia>, ins: seq<Inscripcion>,
                               rows: seq<Calificacion>, calificacion: CalificacionData): (e: Option<HttpException>)
    requires UniqueKeys(materias)
    ensures FindById(alumnos, calificacion.alumnoId).None? ==> e == Some(HttpException(404, AlumnoNoEncontrado))
    ensures FindById(alumnos, calificacion.alumnoId).Some? && FindById(materias, calificacion.materiaId).None?
            ==> e == Some(HttpException(404, MateriaNoEncontrada))
    ensures FindById(alumnos, calificacion.alumnoId).Some? && FindById(materias, calificacion.materiaId).Some?
            && Inscripcion(calificacion.alumnoId, calificacion.materiaId) !in ins
            ==> e == Some(HttpException(400, InscripcionService.NoInscrito))
    ensures FindById(alumnos, calificacion.alumnoId).Some? && FindById(materias, calificacion.materiaId).Some?
            && Inscripcion(calificacion.alumnoId, calificacion.materiaId) in ins
            && HasCalificacion(rows, calificacion.alumnoId, calificacion.materiaId)
            ==> e == Some(HttpException(400, CalificacionExistente))
    ensures e.None? <==> FindById(alumnos, calificacion.alumnoId).Some?
                         && FindById(materias, calificacion.materiaId).Some?
                         && Inscripcion(calificacion.alumnoId, calificacion.materiaId) in ins
                         && !HasCalificacion(rows, calificacion.alumnoId, calificacion.materiaId)
  {
    var alumno := FindById(alumnos, calificacion.alumnoId);
    var materia := FindById(materias, calificacion.materiaId);
    if alumno.None? then Some(HttpException(404, AlumnoNoEncontrado))
    else if materia.None? then Some(HttpException(404, MateriaNoEncontrada))
    else if materia.value !in InscripcionService.MateriasDe(ins, materias, alumno.value.id) then
      Some(HttpException(400, InscripcionService.NoInscrito))
    else if HasCalificacion(rows, calificacion.alumnoId, calificacion.materiaId) then
      Some(HttpException(400, CalificacionExistente))
    else None
  }

  /**
   * Records a grade once `ValidarCalificacion` passes: the row gets the next key and carries the
   * pair and the score; every existing grade stays as it was.
   */
  method CreateCalificacion(db: Db, calificacion: CalificacionData) returns (r: Result<Calificacion>)
    requires db.Valid()
    modifies db`calificaciones, db`nextCalificacionId
    ensures db.Valid()
    ensures var e := ValidarCalificacion(db.alumnos, db.materias, db.inscripciones, old(db.calificaciones), calificacion);
            (r.Err? <==> e.Some?) && (r.Err? ==> r.error == e.value)
    ensures r.Ok? ==> r.value == Row(old(db.nextCalificacionId), calificacion)
                      && db.calificaciones == old(db.calificaciones) + [r.value]
                      && db.nextCalificacionId == old(db.nextCalificacionId) + 1
    ensures r.Err? ==> db.calificaciones == old(db.calificaciones) && db.nextCalificacionId == old(db.nextCalificacionId)
  {
    var e := ValidarCalificacion(db.alumnos, db.materias, db.inscripciones, db.calificaciones, calificacion);
    if e.Some? {
      return Err(e.value);
    }
    var row := Insert(db, calificacion);
    r := Ok(row);
  }

  /** `db.add` and `db.commit` of a grade for a pair that has none: the row gets the next key. */
  method Insert(db: Db, calificacion: CalificacionData) returns (row: Calificacion)
    requires db.Valid()
    requires !HasCalificacion(db.calificaciones, calificacion.alumnoId, calificacion.materiaId)
    modifies db`calificaciones, db`nextCalificacionId
    ensures db.Valid()
    ensures row == Row(old(db.nextCalificacionId), calificacion)
    ensures db.calificaciones == old(db.calificaciones) + [row]
    ensures db.nextCalificacionId == old(db.nextCalificacionId) + 1
  {
    row := Row(db.nextCalificacionId, calificacion);
    AppendCalificacionValid(db.calificaciones, db.nextCalificacionId, row);
    db.calificaciones := db.calificaciones + [row];
    db.nextCalificacionId := db.nextCalificacionId + 1;
  }

  /** Inserting a grade for a pair that has none keeps the grade table valid. */
  lemma AppendCalificacionValid(rows: seq<Calificacion>, next: int, row: Calificacion)
    requires CalificacionesValid(rows, next) && row.id == next
    requires !HasCalificacion(rows, row.data.alumnoId, row.data.materiaId)
    ensures CalificacionesValid(rows + [row], next + 1)
  {
    AppendKeepsKeys(rows, next, row);
  }

  /** The grades whose `alumno_id` is `alumnoId`, in storage order. */
  function CalificacionesDe(rows: seq<Calificacion>, alumnoId: int): (r: seq<Calificacion>)
    ensures forall c :: c in r <==> c in rows && c.data.alumnoId == alumnoId
    ensures |r| <= |rows|
    ensures NoDup(rows) ==> NoDup(r)
  {
    if rows == [] then []
    else
      assert rows == [rows[0]] + rows[1..];
      var rest := CalificacionesDe(rows[1..], alumnoId);
      if rows[0].data.alumnoId == alumnoId then
        assert NoDup(rows) ==> NoDup([rows[0]] + rest) by {
          if NoDup(rows) {
            NoDupTail(rows);
            ConsNoDup(rows[0], rest);
          }
        }
        [rows[0]] + rest
      else
        assert NoDup(rows) ==> NoDup(rest) by {
          if NoDup(rows) {
            NoDupTail(rows);
          }
        }
        rest
  }

  /** All grades of student `alumnoId`, or 404 when there is no such student. */
  function GetCalificacionesAlumno(alumnos: seq<Alumno>, rows: seq<Calificacion>, alumnoId: int)
    : (r: Result<seq<Calificacion>>)
    ensures r.Err? <==> forall a :: a in alumnos ==> a.id != alumnoId
    ensures r.Err? ==> r.error == HttpException(404, AlumnoNoEncontrado)
    ensures r.Ok? ==> forall c :: c in r.value <==> c in rows && c.data.alumnoId == alumnoId
    ensures r.Ok? && UniqueKeys(rows) ==> NoDup(r.value)
  {
    if FindById(alumnos, alumnoId).None? then Err(HttpException(404, AlumnoNoEncontrado))
    else
      assert UniqueKeys(rows) ==> NoDup(CalificacionesDe(rows, alumnoId)) by {
        if UniqueKeys(rows) {
          UniqueKeysNoDup(rows);
        }
      }
      Ok(CalificacionesDe(rows, alumnoId))
  }

  /**
   * Sets the score of the grade for the pair. Only the grade table is consulted: the student
   * and the course are not looked up.
   */
  method UpdateCalificacion(db: Db, alumnoId: int, materiaId: int, nuevaCalificacion: real) returns (r: Result<Calificacion>)
    requires db.Valid()
    modifies db`calificaciones
    ensures db.Valid()
    ensures r.Err? <==> !HasCalificacion(old(db.calificaciones), alumnoId, materiaId)
    ensures r.Err? ==> r.error == HttpException(404, CalificacionNoEncontrada) && db.calificaciones == old(db.calificaciones)
    ensures r.Ok? ==> r.value in db.calificaciones && r.value.data == CalificacionData(alumnoId, materiaId, nuevaCalificacion)
    ensures |db.calificaciones| == |old(db.calificaciones)|
    ensures forall i :: 0 <= i < |db.calificaciones| ==>
              db.calificaciones[i] == var c := old(db.calificaciones[i]);
                                      if c.data.alumnoId == alumnoId && c.data.materiaId == materiaId
                                      then Row(c.id, c.data.(calificacion := nuevaCalificacion))
                                      else c
  {
    var k := IndexWhere(db.calificaciones, (c: Calificacion) => c.data.alumnoId == alumnoId && c.data.materiaId == materiaId);
    if k.None? {
      assert !HasCalificacion(db.calificaciones, alumnoId, materiaId) by {
        forall c | c in db.calificaciones ensures !(c.data.alumnoId == alumnoId && c.data.materiaId == materiaId) {
          var i :| 0 <= i < |db.calificaciones| && db.calificaciones[i] == c;
        }
      }
      return Err(HttpException(404, CalificacionNoEncontrada));
    }
    forall i | 0 <= i < |db.calificaciones| && i != k.value
      ensures !(db.calificaciones[i].data.alumnoId == alumnoId && db.calificaciones[i].data.materiaId == materiaId)
    {
      assert db.calificaciones[i] in db.calificaciones && db.calificaciones[k.value] in db.calificaciones;
    }
    assert db.calificaciones[k.value].data.alumnoId == alumnoId && db.calificaciones[k.value].data.materiaId == materiaId;
    var updated := SetScore(db, k.value, nuevaCalificacion);
    assert db.calificaciones[k.value] == updated;
    r := Ok(updated);
  }

  /** Assigns the score of the grade at position `k` in place; its key and its pair stay. */
  method SetScore(db: Db, k: nat, nuevaCalificacion: real) returns (updated: Calificacion)
    requires db.Valid() && k < |db.calificaciones|
    modifies db`calificaciones
    ensures db.Valid()
    ensures var c := old(db.calificaciones[k]); updated == Row(c.id, c.data.(calificacion := nuevaCalificacion))
    ensures db.calificaciones == old(db.calificaciones)[k := updated]
  {
    var c := db.calificaciones[k];
    updated := Row(c.id, c.data.(calificacion := nuevaCalificacion));
    assert c in db.calificaciones;
    db.calificaciones := ReplaceRow(db.calificaciones, k, updated);
  }

  /**
   * Sum of the scores. The definition adds from the right; the ensures states the
   * left-to-right accumulation `sum` performs, starting from 0.
   */
  function SumCalificaciones(rows: seq<Calificacion>): (s: real)
    ensures rows == [] ==> s == 0.0
    ensures rows != [] ==> s == SumCalificaciones(rows[..|rows| - 1]) + rows[|rows| - 1].data.calificacion
  {
    if rows == [] then 0.0
    else
      var s := rows[0].data.calificacion + SumCalificaciones(rows[1..]);
      assert |rows| > 1 ==> rows[1..][..|rows[1..]| - 1] == rows[..|rows| - 1][1..];
      assert rows[1..] == [] ==> rows[..|rows| - 1] == [];
      s
  }

  /** The mean score of student `alumnoId`: 0.0 without grades, 404 when there is no such student. */
  function GetPromedioAlumno(alumnos: seq<Alumno>, rows: seq<Calificacion>, alumnoId: int): (r: Result<real>)
    ensures r.Err? <==> forall a :: a in alumnos ==> a.id != alumnoId
    ensures r.Err? ==> r.error == HttpException(404, AlumnoNoEncontrado)
    ensures r.Ok? && CalificacionesDe(rows, alumnoId) == [] ==> r.value == 0.0
    ensures r.Ok? && CalificacionesDe(rows, alumnoId) != [] ==>
              r.value == SumCalificaciones(CalificacionesDe(rows, alumnoId)) / (|CalificacionesDe(rows, alumnoId)| as real)
  {
    match GetCalificacionesAlumno(alumnos, rows, alumnoId)
    case Err(e) => Err(e)
    case Ok(calificaciones) =>
      if calificaciones == [] then Ok(0.0)
      else Ok(SumCalificaciones(calificaciones) / (|calificaciones| as real))
  }

  /** If every score lies on the 0 to 10 scale, their sum lies between 0 and 10 times their count. */
  lemma {:induction false} SumInRange(rows: seq<Calificacion>)
    requires forall c :: c in rows ==> 0.0 <= c.data.calificacion <= 10.0
    ensures 0.0 <= SumCalificaciones(rows) <= 10.0 * (|rows| as real)
  {
    if rows != [] {
      assert rows[0] in rows;
      assert forall c :: c in rows[1..] ==> c in rows;
      SumInRange(rows[1..]);
    }
  }

  /** With every score on the 0 to 10 scale, the average is on that scale too. */
  lemma PromedioInRange(alumnos: seq<Alumno>, rows: seq<Calificacion>, alumnoId: int)
    requires forall c :: c in rows ==> 0.0 <= c.data.calificacion <= 10.0
    ensures GetPromedioAlumno(alumnos, rows, alumnoId).Ok? ==> 0.0 <= GetPromedioAlumno(alumnos, rows, alumnoId).value <= 10.0
  {
    var grades := CalificacionesDe(rows, alumnoId);
    if grades != [] {
      SumInRange(grades);
      QuotientInRange(SumCalificaciones(grades), |grades| as real);
    }
  }

  /** A total between 0 and 10 times a positive count gives a quotient between 0 and 10. */
  lemma QuotientInRange(sum: real, n: real)
    requires n > 0.0 && 0.0 <= sum <= 10.0 * n
    ensures 0.0 <= sum / n <= 10.0
  {
    var q := sum / n;
    assert q * n == sum;
    assert (q - 10.0) * n == sum - 10.0 * n;
  }

  /** A student graded 8, 6 and 10 averages 8; a student without grades averages 0. */
  lemma PromedioExample()
    ensures var alumnos := [Row(1, AlumnoData("Ana", "Ruiz", "A0001", "ana@school.com")),
                            Row(2, AlumnoData("Luis", "Paz", "A0002", "luis@school.com"))];
            var rows := [Row(1, CalificacionData(1, 1, 8.0)), Row(2, CalificacionData(1, 2, 6.0)),
                         Row(3, CalificacionData(1, 3, 10.0))];
            GetPromedioAlumno(alumnos, rows, 1) == Ok(8.0) && GetPromedioAlumno(alumnos, rows, 2) == Ok(0.0)
  {
    var rows := [Row(1, CalificacionData(1, 1, 8.0)), Row(2, CalificacionData(1, 2, 6.0)),
                 Row(3, CalificacionData(1, 3, 10.0))];
    assert CalificacionesDe(rows[2..], 1) == rows[2..];
    assert CalificacionesDe(rows[1..], 1) == rows[1..];
    assert CalificacionesDe(rows, 1) == rows;
    assert SumCalificaciones(rows) == 24.0;
    assert CalificacionesDe(rows[2..], 2) == [];
    assert CalificacionesDe(rows[1..], 2) == [];
    assert CalificacionesDe(rows, 2) == [];
  }

  /** `.offset(skip).limit(limit)` over all grades. */
  function GetTodasCalificaciones(rows: seq<Calificacion>, skip: nat, limit: nat): (page: seq<Calificacion>)
    ensures |page| <= limit
    ensures |page| == if skip >= |rows| then 0 else Min(limit, |rows| - skip)
    ensures forall i :: 0 <= i < |page| ==> page[i] == rows[skip + i]
  {
    Paginate(rows, skip, limit)
  }
}
