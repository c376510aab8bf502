/**
 * The records of the school-records store and the store itself. The column sets follow the
 * ORM declarations; `role` on users is part of the model although the ORM declaration of
 * `User` shown beside the services does not declare it, because the admin bootstrap and the
 * admin gate both read and write it.
 */
module Models {
  import opened Wrappers
  import opened Tables

  /** `RoleEnum`: administrators and every other account. */
  datatype Role = Admin | Regular

  /** Columns of `alumnos` besides the key. */
  datatype AlumnoData = AlumnoData(nombre: string, apellido: string, matricula: string, email: string)

  /** Columns of `materias` besides the key. */
  datatype MateriaData = MateriaData(nombre: string, codigo: string, creditos: int)

  /** Columns of `calificaciones` besides the key: the (student, course) pair and the score. */
  datatype CalificacionData = CalificacionData(alumnoId: int, materiaId: int, calificacion: real)

  /** Columns of `users` besides the key. */
  datatype UserData = UserData(email: string, hashedPassword: string, isActive: bool, role: Role)

  /** A row of the association table `alumno_materia`, which has no key of its own. */
  datatype Inscripcion = Inscripcion(alumnoId: int, materiaId: int)

  type Alumno = Row<AlumnoData>
  type Materia = Row<MateriaData>
  type Calificacion = Row<CalificacionData>
  type User = Row<UserData>

  const AlumnoNoEncontrado := "Alumno no encontrado"
  const MateriaNoEncontrada := "Materia no encontrada"

  /** `alumnos`: keys unique and issued by the sequence; `matricula` and `email` are unique columns. */
  ghost predicate AlumnosValid(rows: seq<Alumno>, next: int) {
    && UniqueKeys(rows) && KeysBelow(rows, next)
    && (forall a, b :: a in rows && b in rows && a.data.matricula == b.data.matricula ==> a == b)
    && (forall a, b :: a in rows && b in rows && a.data.email == b.data.email ==> a == b)
  }

  /** `materias`: keys unique and issued by the sequence; `codigo` is a unique column. */
  ghost predicate MateriasValid(rows: seq<Materia>, next: int) {
    && UniqueKeys(rows) && KeysBelow(rows, next)
    && (forall a, b :: a in rows && b in rows && a.data.codigo == b.data.codigo ==> a == b)
  }

  /** `calificaciones`: keys unique and issued by the sequence; at most one grade per (student, course) pair. */
  ghost predicate CalificacionesValid(rows: seq<Calificacion>, next: int) {
    && UniqueKeys(rows) && KeysBelow(rows, next)
    && (forall a, b ::
          a in rows && b in rows && a.data.alumnoId == b.data.alumnoId && a.data.materiaId == b.data.materiaId
          ==> a == b)
  }

  /** No two accounts share an `email`. */
  ghost predicate UniqueUserEmails(rows: seq<User>) {
    forall a, b :: a in rows && b in rows && a.data.email == b.data.email ==> a == b
  }

  /** `users`: keys unique and issued by the sequence; `email` is a unique column. */
  ghost predicate UsersValid(rows: seq<User>, next: int) {
    UniqueKeys(rows) && KeysBelow(rows, next) && UniqueUserEmails(rows)
  }

  /** Whether some student already has this `matricula`. */
  predicate MatriculaTaken(rows: seq<Alumno>, matricula: string) {
    exists a :: a in rows && a.data.matricula == matricula
  }

  /** Whether some student already has this `email`. */
  predicate AlumnoEmailTaken(rows: seq<Alumno>, email: string) {
    exists a :: a in rows && a.data.email == email
  }

  /** Whether some course already has this `codigo`. */
  predicate CodigoTaken(rows: seq<Materia>, codigo: string) {
    exists m :: m in rows && m.data.codigo == codigo
  }

  /** Whether some account already has this `email`. */
  predicate UserEmailTaken(rows: seq<User>, email: string) {
    exists u :: u in rows && u.data.email == email
  }

  /** Whether a grade is recorded for the pair. */
  predicate HasCalificacion(rows: seq<Calificacion>, alumnoId: int, materiaId: int) {
    exists c :: c in rows && c.data.alumnoId == alumnoId && c.data.materiaId == materiaId
  }

  /**
   * The database session the services receive: one table per entity in storage order,
   * the association table, and the next key each table's sequence hands out.
   */
  class Db {
    var alumnos: seq<Alumno>
    var materias: seq<Materia>
    var inscripciones: seq<Inscripcion>
    var calificaciones: seq<Calificacion>
    var users: seq<User>
    var nextAlumnoId: int
    var nextMateriaId: int
    var nextCalificacionId: int
    var nextUserId: int

    /**
     * The constraints the store keeps: key and unique-column constraints, and the two that
     * only the services' own checks maintain: no (student, course) pair twice in the
     * association table, and at most one grade per pair.
     */
    ghost predicate Valid()
      reads this
    {
      && AlumnosValid(alumnos, nextAlumnoId)
      && MateriasValid(materias, nextMateriaId)
      && NoDup(inscripciones)
      && CalificacionesValid(calificaciones, nextCalificacionId)
      && UsersValid(users, nextUserId)
    }

    /**
     * What the constraints give the services: each row is the one its key finds, and a unique
     * column value identifies at most one row.
     */
    lemma ValidLookups()
      requires Valid()
      ensures forall a :: a in alumnos ==> FindById(alumnos, a.id) == Some(a) && a.id < nextAlumnoId
      ensures forall m :: m in materias ==> FindById(materias, m.id) == Some(m) && m.id < nextMateriaId
      ensures forall c :: c in calificaciones ==> FindById(calificaciones, c.id) == Some(c) && c.id < nextCalificacionId
      ensures forall u :: u in users ==> FindById(users, u.id) == Some(u) && u.id < nextUserId
      ensures forall a, b :: a in alumnos && b in alumnos && a.data.email == b.data.email ==> a == b
      ensures forall u, v :: u in users && v in users && u.data.email == v.data.email ==> u == v
    {
    }

    /** A freshly created schema: every table empty, every sequence at 1. */
    constructor ()
      ensures Valid()
      ensures alumnos == [] && materias == [] && inscripciones == [] && calificaciones == [] && users == []
      ensures nextAlumnoId == 1 && nextMateriaId == 1 && nextCalificacionId == 1 && nextUserId == 1
    {
      alumnos, materias, inscripciones, calificaciones, users := [], [], [], [], [];
      nextAlumnoId, nextMateriaId, nextCalificacionId, nextUserId := 1, 1, 1, 1;
    }
  }
}
