/**
 * Enrollment: the many-to-many relation between students and courses, stored as rows of the
 * association table `alumno_materia` and navigated through the `alumno.materias` and
 * `materia.alumnos` relationship lists.
 */
module InscripcionService {
  import opened Wrappers
  import opened Tables
  import opened Models

  const YaInscrito := "El alumno ya está inscrito en esta materia"
  const NoInscrito := "El alumno no está inscrito en esta materia"
  const InscripcionRealizada := "Inscripción realizada correctamente"
  const BajaRealizada := "Alumno dado de baja de la materia correctamente"

  /**
   * `alumno.materias`: the courses joined to the student through association rows, in the
   * order of those rows. A row whose course no longer exists joins nothing.
   */
  function MateriasDe(ins: seq<Inscripcion>, materias: seq<Materia>, alumnoId: int): (r: seq<Materia>)
    requires UniqueKeys(materias)
    ensures forall m :: m in r <==> m in materias && Inscripcion(alumnoId, m.id) in ins
    ensures NoDup(ins) ==> NoDup(r)
  {
    if ins == [] then []
    else
      assert ins == [ins[0]] + ins[1..];
      var rest := MateriasDe(ins[1..], materias, alumnoId);
      if ins[0].alumnoId == alumnoId then
        match FindById(materias, ins[0].materiaId)
        case Some(m) =>
          assert NoDup(ins) ==> NoDup([m] + rest) by {
            if NoDup(ins) {
              NoDupTail(ins);
              assert ins[0] == Inscripcion(alumnoId, m.id);
              ConsNoDup(m, rest);
            }
          }
          [m] + rest
        case None => rest
      else rest
  }

  /**
   * `materia.alumnos`: the students joined to the course through association rows, in the
   * order of those rows. A row whose student no longer exists joins nothing.
   */
  function AlumnosDe(ins: seq<Inscripcion>, alumnos: seq<Alumno>, materiaId: int): (r: seq<Alumno>)
    requires UniqueKeys(alumnos)
    ensures forall a :: a in r <==> a in alumnos && Inscripcion(a.id, materiaId) in ins
    ensures NoDup(ins) ==> NoDup(r)
  {
    if ins == [] then []
    else
      assert ins == [ins[0]] + ins[1..];
      var rest := AlumnosDe(ins[1..], alumnos, materiaId);
      if ins[0].materiaId == materiaId then
        match FindById(alumnos, ins[0].alumnoId)
        case Some(a) =>
          assert NoDup(ins) ==> NoDup([a] + rest) by {
            if NoDup(ins) {
              NoDupTail(ins);
              assert ins[0] == Inscripcion(a.id, materiaId);
              ConsNoDup(a, rest);
            }
          }
          [a] + rest
        case None => rest
      else rest
  }

  /** The two relationship lists are views of one relation: each lists the other exactly when the pair is enrolled. */
  lemma EnrollmentViewsAgree(ins: seq<Inscripcion>, alumnos: seq<Alumno>, materias: seq<Materia>, a: Alumno, m: Materia)
    requires UniqueKeys(alumnos) && UniqueKeys(materias)
    requires a in alumnos && m in materias
    ensures a in AlumnosDe(ins, alumnos, m.id) <==> m in MateriasDe(ins, materias, a.id)
    ensures m in MateriasDe(ins, materias, a.id) <==> Inscripcion(a.id, m.id) in ins
  {
  }

  /** Enrolls student `alumnoId` in course `materiaId`, checking the student, then the course, then the pair. */
  method InscribirAlumno(db: Db, alumnoId: int, materiaId: int) returns (r: Result<string>)
    requires db.Valid()
    modifies db`inscripciones
    ensures db.Valid()
    ensures FindById(db.alumnos, alumnoId).None? ==> r == Err(HttpException(404, AlumnoNoEncontrado))
    ensures FindById(db.alumnos, alumnoId).Some? && FindById(db.materias, materiaId).None?
            ==> r == Err(HttpException(404, MateriaNoEncontrada))
    ensures FindById(db.alumnos, alumnoId).Some? && FindById(db.materias, materiaId).Some?
            && Inscripcion(alumnoId, materiaId) in old(db.inscripciones)
            ==> r == Err(HttpException(400, YaInscrito))
    ensures r.Ok? <==> FindById(db.alumnos, alumnoId).Some? && FindById(db.materias, materiaId).Some?
                       && Inscripcion(alumnoId, materiaId) !in old(db.inscripciones)
    ensures r.Ok? ==> r.value == InscripcionRealizada
                      && db.inscripciones == old(db.inscripciones) + [Inscripcion(alumnoId, materiaId)]
    ensures r.Err? ==> db.inscripciones == old(db.inscripciones)
  {
    var alumno := FindById(db.alumnos, alumnoId);
    var materia := FindById(db.materias, materiaId);
    if alumno.None? {
      return Err(HttpException(404, AlumnoNoEncontrado));
    }
    if materia.None? {
      return Err(HttpException(404, MateriaNoEncontrada));
    }
    if materia.value in MateriasDe(db.inscripciones, db.materias, alumno.value.id) {
      return Err(HttpException(400, YaInscrito));
    }
    AppendNoDup(db.inscripciones, Inscripcion(alumnoId, materiaId));
    db.inscripciones := db.inscripciones + [Inscripcion(alumnoId, materiaId)];
    r := Ok(InscripcionRealizada);
  }

  /** The courses student `alumnoId` is enrolled in, or 404 when there is no such student. */
  function GetMateriasAlumno(alumnos: seq<Alumno>, materias: seq<Materia>, ins: seq<Inscripcion>, alumnoId: int)
    : (r: Result<seq<Materia>>)
    requires UniqueKeys(materias)
    ensures r.Err? <==> forall a :: a in alumnos ==> a.id != alumnoId
    ensures r.Err? ==> r.error == HttpException(404, AlumnoNoEncontrado)
    ensures r.Ok? ==> forall m :: m in r.value <==> m in materias && Inscripcion(alumnoId, m.id) in ins
    ensures r.Ok? && NoDup(ins) ==> NoDup(r.value)
  {
    match FindById(alumnos, alumnoId)
    case None => Err(HttpException(404, AlumnoNoEncontrado))
    case Some(alumno) => Ok(MateriasDe(ins, materias, alumno.id))
  }

  /** The students enrolled in course `materiaId`, or 404 when there is no such course. */
  function GetAlumnosMateria(alumnos: seq<Alumno>, materias: seq<Materia>, ins: seq<Inscripcion>, materiaId: int)
    : (r: Result<seq<Alumno>>)
    requires UniqueKeys(alumnos)
    ensures r.Err? <==> forall m :: m in materias ==> m.id != materiaId
    ensures r.Err? ==> r.error == HttpException(404, MateriaNoEncontrada)
    ensures r.Ok? ==> forall a :: a in r.value <==> a in alumnos && Inscripcion(a.id, materiaId) in ins
    ensures r.Ok? && NoDup(ins) ==> NoDup(r.value)
  {
    match FindById(materias, materiaId)
    case None => Err(HttpException(404, MateriaNoEncontrada))
    case Some(materia) => Ok(AlumnosDe(ins, alumnos, materia.id))
  }

  /** Withdraws student `alumnoId` from course `materiaId`, checking the student, then the course, then the pair. */
  method DarBajaMateria(db: Db, alumnoId: int, materiaId: int) returns (r: Result<string>)
    requires db.Valid()
    modifies db`inscripciones
    ensures db.Valid()
    ensures FindById(db.alumnos, alumnoId).None? ==> r == Err(HttpException(404, AlumnoNoEncontrado))
    ensures FindById(db.alumnos, alumnoId).Some? && FindById(db.materias, materiaId).None?
            ==> r == Err(HttpException(404, MateriaNoEncontrada))
    ensures FindById(db.alumnos, alumnoId).Some? && FindById(db.materias, materiaId).Some?
            && Inscripcion(alumnoId, materiaId) !in old(db.inscripciones)
            ==> r == Err(HttpException(400, NoInscrito))
    ensures r.Ok? <==> FindById(db.alumnos, alumnoId).Some? && FindById(db.materias, materiaId).Some?
                       && Inscripcion(alumnoId, materiaId) in old(db.inscripciones)
    ensures r.Ok? ==> r.value == BajaRealizada
                      && db.inscripciones == RemoveFirst(old(db.inscripciones), Inscripcion(alumnoId, materiaId))
                      && forall p :: p in db.inscripciones <==> p in old(db.inscripciones) && p != Inscripcion(alumnoId, materiaId)
    ensures r.Err? ==> db.inscripciones == old(db.inscripciones)
  {
    var alumno := FindById(db.alumnos, alumnoId);
    var materia := FindById(db.materias, materiaId);
    if alumno.None? {
      return Err(HttpException(404, AlumnoNoEncontrado));
    }
    if materia.None? {
      return Err(HttpException(404, MateriaNoEncontrada));
    }
    if materia.value !in MateriasDe(db.inscripciones, db.materias, alumno.value.id) {
      return Err(HttpException(400, NoInscrito));
    }
    RemoveFirstNoDup(db.inscripciones, Inscripcion(alumnoId, materiaId));
    db.inscripciones := RemoveFirst(db.inscripciones, Inscripcion(alumnoId, materiaId));
    r := Ok(BajaRealizada);
  }

  /**
   * Enrolling a pair and then withdrawing it leaves the association table as it was, with the
   * pair no longer enrolled, so it can be enrolled again afterwards.
   */
  method InscribirThenDarBaja(db: Db, alumnoId: int, materiaId: int) returns (first: Result<string>, second: Result<string>)
    requires db.Valid()
    modifies db`inscripciones
    ensures db.Valid()
    ensures first.Ok? ==> second.Ok? && db.inscripciones == old(db.inscripciones)
                          && Inscripcion(alumnoId, materiaId) !in db.inscripciones
    ensures first.Err? ==> db.inscripciones == old(db.inscripciones)
  {
    first := InscribirAlumno(db, alumnoId, materiaId);
    if first.Ok? {
      second := DarBajaMateria(db, alumnoId, materiaId);
      RemoveFirstAppended(old(db.inscripciones), Inscripcion(alumnoId, materiaId));
    } else {
      second := first;
    }
  }
}
