# School records service layer, in Dafny

This project models the service layer of a school-records backend, a FastAPI and SQLAlchemy
application that keeps students (`alumnos`), courses (`materias`), the enrollment relation
between them (the association table `alumno_materia`), grades (`calificaciones`) and user
accounts. It covers each service function that reads or changes the store. It also covers the
bootstrap of the administrator account and the dependency that admits only administrators.

The database session is the class `Models.Db`:

- Each table is a sequence of rows in storage order. A row is its primary key plus its columns.
- Each table's primary keys are issued by a counter (see "Left out").
- The association table is a sequence of (student, course) pairs.

`Db.Valid()` states the constraints the store keeps:

- unique primary keys, all below the next key;
- unique columns: `matricula`, the student `email`, `codigo` and the account `email`;
- no pair twice in the association table;
- at most one grade per pair.

The association table has no unique constraint. Only the membership check in
`inscribir_alumno` keeps pairs unique, so that property is proved to be preserved by each
operation. Each state-changing service is a method with a field-granular `modifies` clause.
Lookups and listings are functions over table values. A raised `HTTPException` becomes
`Err(HttpException(status, detail))`, with the status codes and detail strings of the code.

Grades are not tied to enrollment after they are created. Withdrawal keeps the student's grades,
so the model does not state "every grade belongs to an enrolled pair" as an invariant.

Details the model follows from the code:

- **Student 404 detail.** `update_alumno` and `delete_alumno` look the student up through
  `get_alumno`. A missing id therefore yields its detail, `"Alumno con id <id> no encontrado"`
  (`AlumnoService.NoEncontrado`). Their own `"Alumno no encontrado"` branches are unreachable.
- **`create_user` on a taken email.** It makes no duplicate check. The commit fails on the
  unique `email` column. No handler catches that exception, so the response is a 500. The
  model returns `Err(HttpException(500, "Internal Server Error"))` and leaves the store unchanged.
- **Unique-column clashes on courses.** `create_materia` and `update_materia` check nothing
  before committing. A `codigo` that clashes makes the commit fail, and the code answers 400.
- **Student update clash.** An `update_alumno` that would give a student another student's
  `matricula` or `email` fails at commit with 400.
- **Roles.** The `User` declaration (`app/models/models.py:13-19`) and its schema have no `role`
  column. The model adds one because `create_admin` writes it (`app/services/admin_service.py:21`)
  and `admin_required` reads it (`app/middleware/auth_middleware.py:11`). `create_user` does not
  set it, so a registered account is modelled as `Regular` and active.

## Model

| member | source | states |
|---|---|---|
| Tables.FindById | app/services/inscripcion_service.py:11-12 | `.filter(id == key).first()`: the row returned has that key; nothing is returned iff no row has it; with unique keys, the returned row is the one with the key |
| Tables.IndexWhere | app/services/auth_service.py:21 | `.filter(p).first()`: the position found satisfies `p` and no earlier row does; nothing is found iff no row satisfies `p` |
| Tables.Paginate | app/services/calificacion_service.py:90 | `.offset(skip).limit(limit)`: the page has `min(limit, n - skip)` rows (none past the end), and its i-th row is row `skip + i` |
| Tables.PaginateConsecutive | app/services/calificacion_service.py:90 | two consecutive pages concatenate to the page spanning both, so paging skips and repeats no row |
| Tables.ReplaceRow | app/services/calificacion_service.py:67-68 | an UPDATE of one row: only position `k` changes, keys stay unique, and the rows are the new row plus the old rows with other keys |
| Tables.DeleteById | app/services/alumno_service.py:78-79 | a DELETE by key: the rows left are exactly the old rows with other keys, keys stay unique, the table shrinks by one iff the key was present, and the other rows keep their storage order (the table is unchanged when the key is absent) |
| Tables.FirstIndex | app/services/inscripcion_service.py:65 | the position of the first occurrence: it holds `x` and no earlier position does |
| Tables.RemoveFirst | app/services/inscripcion_service.py:65 | `list.remove(x)`: the elements before and after the first occurrence of `x`, in their order; the list unchanged when it has no `x` |
| Tables.RemoveFirstMultiset | app/services/inscripcion_service.py:65 | removal takes exactly one copy of `x` out of the multiset of elements |
| Tables.RemoveFirstAppended | app/services/inscripcion_service.py:24-65 | appending an absent `x` and then removing `x` gives back the original list |
| Tables.RemoveFirstNoDup | app/services/inscripcion_service.py:65 | on a duplicate-free list, removal keeps it duplicate-free and removes exactly `x` |
| Tables.AppendNoDup | app/services/inscripcion_service.py:20-24 | appending an element not yet present keeps a list duplicate-free |
| Tables.UniqueKeysNoDup | app/models/models.py:16 | rows with distinct primary keys are distinct, so a table has no repeated row |
| Tables.AppendKeepsKeys | app/models/models.py:16 | inserting under the next sequence key keeps keys unique and below the advanced sequence |
| Models.Db.Valid | app/models/models.py:16-17 | the store's constraints: unique keys below each sequence, unique `matricula`, student `email`, `codigo` and account `email`, no pair twice in the association table, at most one grade per pair |
| Models.Db.ValidLookups | app/models/models.py:16-37 | under the constraints every row is the one its key finds, and a student or account `email` identifies one row |
| Models.Db.constructor | app/models/models.py:6-50 | a fresh schema: every table empty, every sequence at 1, all constraints hold |
| Text.NatToString | app/services/alumno_service.py:48 | `str(n)` for `n >= 0`: a non-empty string of decimal digits without a leading zero |
| Text.IntToString | app/services/alumno_service.py:48 | `str(i)`: starts with a minus sign exactly when `i` is negative |
| Text.NatToStringRoundTrip | app/services/alumno_service.py:48 | reading back the digits of `n` gives `n` |
| Text.IntToStringRoundTrip | app/services/alumno_service.py:48 | reading back `str(i)` gives `i` |
| Text.IntToStringInjective | app/services/alumno_service.py:48 | distinct integers are written differently |
| InscripcionService.MateriasDe | app/services/inscripcion_service.py:38 | `alumno.materias`: a course is listed iff it exists and its pair with the student is enrolled; no duplicates while the pairs have none |
| InscripcionService.AlumnosDe | app/services/inscripcion_service.py:47 | `materia.alumnos`: a student is listed iff they exist and their pair with the course is enrolled; no duplicates while the pairs have none |
| InscripcionService.EnrollmentViewsAgree | app/services/inscripcion_service.py:44-47 | a student is listed for a course iff the course is listed for the student, iff the pair is enrolled |
| InscripcionService.InscribirAlumno | app/services/inscripcion_service.py:11-26 | 404 for a missing student, then 404 for a missing course, then 400 if already enrolled; otherwise exactly the pair is appended; the table is unchanged on error; no duplicate pair ever |
| InscripcionService.GetMateriasAlumno | app/services/inscripcion_service.py:35-38 | 404 iff the student is missing; otherwise exactly the courses paired with the student, each once while the pairs have no duplicate |
| InscripcionService.GetAlumnosMateria | app/services/inscripcion_service.py:44-47 | 404 iff the course is missing; otherwise exactly the students paired with the course, each once while the pairs have no duplicate |
| InscripcionService.DarBajaMateria | app/services/inscripcion_service.py:53-67 | 404 for a missing student, then 404 for a missing course, then 400 if not enrolled; otherwise the first occurrence of the pair is removed and the other pairs keep their order; the table is unchanged on error |
| InscripcionService.InscribirThenDarBaja | app/services/inscripcion_service.py:24-65 | a successful enrollment followed by withdrawal of the same pair succeeds, restores the association table and leaves the pair unenrolled |
| CalificacionService.ValidarCalificacion | app/services/calificacion_service.py:12-31 | the checks in order: 404 missing student, 404 missing course, 400 pair not enrolled, 400 grade already present; it passes iff none applies |
| CalificacionService.CreateCalificacion | app/services/calificacion_service.py:7-38 | fails exactly with the first failing check and then adds nothing; otherwise appends one grade with the next key, the given pair and score, and keeps existing grades |
| CalificacionService.Insert | app/services/calificacion_service.py:34-37 | the insert: the row gets the next key and the sequence advances; at most one grade per pair is preserved |
| CalificacionService.AppendCalificacionValid | app/services/calificacion_service.py:25-31 | inserting a grade for a pair that has none keeps one grade per pair |
| CalificacionService.CalificacionesDe | app/services/calificacion_service.py:51 | `.filter(alumno_id == id).all()`: exactly the grades of that student, each once when the table repeats no row |
| CalificacionService.GetCalificacionesAlumno | app/services/calificacion_service.py:47-52 | 404 iff the student is missing; otherwise exactly the grades whose `alumno_id` matches, each once under unique keys |
| CalificacionService.UpdateCalificacion | app/services/calificacion_service.py:58-70 | 404 iff no grade exists for the pair, with the table unchanged; otherwise only that grade's score changes, and keys and other grades are untouched |
| CalificacionService.SetScore | app/services/calificacion_service.py:67-68 | the in-place assignment of one grade's score; key and pair stay and the table stays valid |
| CalificacionService.SumCalificaciones | app/services/calificacion_service.py:83 | `sum(...)`: 0 for no grades, otherwise the sum of all but the last score plus the last, the left-to-right accumulation `sum` performs |
| CalificacionService.GetPromedioAlumno | app/services/calificacion_service.py:79-84 | 404 iff the student is missing; 0.0 without grades; otherwise the sum of the student's scores divided by their count |
| CalificacionService.SumInRange | app/services/calificacion_service.py:83 | scores on the 0 to 10 scale sum to between 0 and 10 times their count |
| CalificacionService.QuotientInRange | app/services/calificacion_service.py:84 | a total between 0 and 10 times a positive count divides to a value between 0 and 10 |
| CalificacionService.PromedioInRange | app/services/calificacion_service.py:79-84 | with all scores on the 0 to 10 scale, the average is on that scale |
| CalificacionService.PromedioExample | app/services/calificacion_service.py:79-84 | grades 8, 6 and 10 average 8.0; a student without grades averages 0.0 |
| CalificacionService.GetTodasCalificaciones | app/services/calificacion_service.py:90 | at most `limit` grades, the ones from position `skip` on, in storage order |
| AlumnoService.NoEncontrado | app/services/alumno_service.py:48 | the 404 detail is `"Alumno con id "`, the id, `" no encontrado"` |
| AlumnoService.NoEncontradoInjective | app/services/alumno_service.py:48 | different ids give different 404 details |
| AlumnoService.CreateAlumno | app/services/alumno_service.py:9-28 | 400 for a taken `matricula`, checked before 400 for a taken `email`; the store is unchanged on either; otherwise one student with the supplied columns and the next key, which `get_alumno` then finds |
| AlumnoService.AppendAlumnoValid | app/services/alumno_service.py:9-25 | inserting a student with a free `matricula` and `email` keeps the student table valid |
| AlumnoService.GetAlumnos | app/services/alumno_service.py:40 | at most `limit` students, the ones from position `skip` on, in storage order |
| AlumnoService.GetAlumno | app/services/alumno_service.py:46-49 | 404 naming the id iff no student has it; otherwise the record with that id |
| AlumnoService.Items | app/services/alumno_service.py:60 | `alumno.dict().items()`: four assignments, each carrying the payload's value for its column, no column twice |
| AlumnoService.SetAttr | app/services/alumno_service.py:61 | one `setattr`: the written column takes the new value and every other column keeps its value |
| AlumnoService.SetAttrs | app/services/alumno_service.py:60-61 | the `setattr` loop applies the assignments in order, the last applied last |
| AlumnoService.AssignUntouched | app/services/alumno_service.py:60-61 | a column no assignment writes keeps its value |
| AlumnoService.AssignLastWins | app/services/alumno_service.py:60-61 | a column ends with the value of the last assignment to it |
| AlumnoService.AssignFull | app/services/alumno_service.py:60-61 | applying every column of an `AlumnoCreate` payload makes the record equal to the payload |
| AlumnoService.UpdateAlumno | app/services/alumno_service.py:55-67 | 404 from `get_alumno` on a missing id; 400 and rollback when another student holds the new `matricula` or `email`; otherwise the student keeps its key and carries the payload, and other students are unchanged |
| AlumnoService.Rewrite | app/services/alumno_service.py:62 | committing the rewritten student: the table is the old one with that row replaced, and it stays valid |
| AlumnoService.ReplaceAlumnoValid | app/services/alumno_service.py:62-67 | rewriting a student to a `matricula` and `email` no other student holds keeps the table valid |
| AlumnoService.DeleteAlumno | app/services/alumno_service.py:73-80 | 404 from `get_alumno` on a missing id, with the table unchanged; otherwise exactly that student is removed and no other |
| MateriaService.CreateMateria | app/services/materia_service.py:10-18 | a taken `codigo` fails the commit: 400 and the store unchanged; otherwise one course with the supplied columns and the next key |
| MateriaService.AppendMateriaValid | app/services/materia_service.py:12-14 | inserting a course with a free `codigo` keeps the course table valid |
| MateriaService.GetMaterias | app/services/materia_service.py:24 | at most `limit` courses, the ones from position `skip` on, in storage order |
| MateriaService.GetMateria | app/services/materia_service.py:30 | nothing, not an error, iff no course has the id; otherwise the course with that id |
| MateriaService.Items | app/services/materia_service.py:41 | `materia.dict().items()`: three assignments, each carrying the payload's value for its column, no column twice |
| MateriaService.SetAttr | app/services/materia_service.py:42 | one `setattr`: the written column takes the new value and every other column keeps its value |
| MateriaService.SetAttrs | app/services/materia_service.py:41-42 | the `setattr` loop applies the assignments in order, the last applied last |
| MateriaService.AssignUntouched | app/services/materia_service.py:41-42 | a column no assignment writes keeps its value |
| MateriaService.AssignLastWins | app/services/materia_service.py:41-42 | a column ends with the value of the last assignment to it |
| MateriaService.AssignFull | app/services/materia_service.py:41-42 | applying every column of a `MateriaCreate` payload makes the record equal to the payload |
| MateriaService.UpdateMateria | app/services/materia_service.py:36-48 | 404 on a missing id; 400 and rollback when another course holds the new `codigo`; otherwise the course keeps its key and carries the payload, and other courses are unchanged |
| MateriaService.Rewrite | app/services/materia_service.py:43 | committing the rewritten course: the table is the old one with that row replaced, and it stays valid |
| MateriaService.ReplaceMateriaValid | app/services/materia_service.py:43-48 | rewriting a course to a `codigo` no other course holds keeps the table valid |
| MateriaService.DeleteMateria | app/services/materia_service.py:54-61 | 404 on a missing id, with the table unchanged; otherwise exactly that course is removed |
| AuthService.GetUserByEmail | app/services/auth_service.py:17-21 | an account whose email equals the argument, or nothing iff no account has it |
| AuthService.AuthenticateUser | app/services/auth_service.py:6-15 | the stored account when the email exists and the password verifies against its hash; the same failure for an unknown email and a wrong password |
| AuthService.AuthenticateExactly | app/services/auth_service.py:13-15 | with unique emails, authentication returns an account iff the password verifies against that account's hash |
| AuthService.GetUser | app/services/auth_service.py:34-38 | the account with that id, or nothing iff there is none |
| AuthService.CreateUser | app/services/auth_service.py:23-32 | stores the hash of the password, not the password, in exactly one new active account; a taken email gives 500 and no change; a verifying scheme then authenticates the new account |
| AuthService.AppendUserValid | app/services/auth_service.py:29-30 | inserting an account with a free email keeps the account table valid |
| AdminService.GetAdminCredentials | app/services/admin_service.py:28-35 | always the fixed pair `admin@school.com` / `admin123` |
| AdminService.CreateAdmin | app/services/admin_service.py:14-26 | adds nothing when an account with the admin email exists; otherwise adds one active administrator holding the hash of the admin password; always returns the account with the admin email |
| AdminService.CreateAdminTwice | app/services/admin_service.py:14-26 | a second bootstrap returns the same account and changes nothing more, so two calls leave the store one call leaves |
| AdminService.AdminCanLogIn | app/services/admin_service.py:7-22 | the bootstrapped administrator authenticates with the fixed credentials and has the administrator role |
| AuthMiddleware.AdminRequired | app/middleware/auth_middleware.py:7-16 | 403 with the permissions detail iff the role is not administrator; otherwise the same user, unchanged |
| AuthMiddleware.AdminRequiredDependsOnRole | app/middleware/auth_middleware.py:11 | two users with the same role get the same verdict |

## Left out

- Commit failures that no modelled constraint causes are not modelled: the model's store never refuses such a commit. This covers the 500 `"Error al crear el alumno: ..."` of `create_alumno`, the 400 rollbacks of enrollment, withdrawal, grade creation and update, and the deletes.
- Deleting a student or course does not cascade to grades or association rows in the model. The code relies on ORM relationship defaults the declarations do not state. The listings skip association rows whose student or course is gone.
- Hashing and verification are the `PasswordScheme` parameter. `hash` is a deterministic function, so bcrypt's random salt is not modelled. Properties that need `verify(p, hash(p))` take it as a hypothesis.
- Token issuing, the current-user dependency, the login route, routing, CORS and startup live in `app/main.py` and the JWT service. The JWT service is not part of this model.
- `admin_required` is an async dependency. The model is the synchronous check.
- `create_admin` converts the account to its response schema, which drops the hash and the role. The model returns the stored row.
- `create_alumno` converts the student record to its response schema too. The model returns the stored row.
- Scores are reals. Floating-point rounding in the sum and the division is not modelled.
- `skip` and `limit` are natural numbers. Negative values are not modelled.
- The default arguments `skip=0` and `limit=100` of the listing services are not modelled: the callers of the model always pass both.
- Primary keys come from a per-table counter in the model. A refused insert uses no key, and a deleted key is never given out again. The database engine's own key policy is not modelled; engines differ on reusing a deleted highest key and on consuming a key for a refused insert.
- The order of `alumno.materias` and `materia.alumnos` is taken to be the order of the association rows.
- Request payloads are assumed well-typed. The update services follow their `AlumnoCreate` and `MateriaCreate` annotations, so the payload always carries every column. Partial payloads and payloads with `None` values are not modelled. The `setattr` lemmas still hold for any sequence of assignments.
- Concurrent requests and session mechanics (`refresh`, the identity map) are not modelled. Each operation is atomic.
