# Restaurant reservations: a Dafny model

This project models the core of a small restaurant-reservation REST API written in C#:

- `ReservaModel` is the reservation record.
- `ReservaService` is the reservation table behind the `IReservaService` interface.
- `ReservasController` holds the endpoints. Creating a reservation runs three guards in a fixed order, then a 90-minute double-booking rule, then the store's create. The other endpoints pass the store's answer through, mapped to an HTTP outcome.

Files:

- `models.dfy` (module `Models`): the record, the `DateTime`/`TimeSpan` representation, `DateTime.Date`, and the record's data annotations as predicates.
- `services.dfy` (module `Services`): the table as a sequence of records in store order. Pure functions give each operation on a table value: `Filtrar` is LINQ `Where`, `IndiceDe` is `Find`/`FirstOrDefault`, and `Gravar`, `Atualizar` and `Remover` are create, update and delete. Lemmas prove what those operations keep and change. The class `ReservaService` holds the table in a field. Its methods change the table in place and are proved against those functions.
- `controllers.dfy` (module `Controllers`): the outcome datatype `Resposta`, the conflict predicate `Conflita` and its `Any` (`ExisteConflito`), and the spec function `Recusa`. `Recusa` gives the answer create returns before the store is touched. The class `ReservasController` works over a `ReservaService`.

Representation choices:

- A `DateTime` is its tick count (`nat`, 100 ns units).
- `.Date` is `t - t % TicksPorDia`.
- Create compares `DataReserva` in full with `==`. The two date filters compare only `Data(...)`. The lemma `MesmoDiaNaoBasta` shows the two comparisons differ.
- A `TimeSpan` is a signed tick count. "`Math.Abs((a - b).TotalMinutes) < 90`" becomes `|a - b| < 90 * 600_000_000` in exact integer arithmetic.
- A null request body, a null name and a null store answer are `Option.None`.
- `DateTime.Now` is the parameter `agora`.
- The database's identity column chooses an id. The model takes any id not already in the table. It does not claim max + 1.

## Model

| member | source | states |
|---|---|---|
| Models.Data | restaurante_C_api/Controllers/ReservationsController.cs:75 | `DateTime.Date` is the midnight at or before the instant, less than a day before it, and a multiple of a day |
| Models.MesmaData | restaurante_C_api/Services/IReservationRepository.cs:55 | two instants have equal `.Date` exactly when they fall on the same day number |
| Models.DataIdempotente | restaurante_C_api/Controllers/ReservationsController.cs:75 | taking `.Date` of a date changes nothing |
| Models.Preenchido | restaurante_C_api/Models/Reservation.cs:14-16 | `[Required]` on the name holds only for a non-null, non-empty string, and holds for every string whose first character is not white space |
| Models.ComprimentoUtf16 | restaurante_C_api/Models/Reservation.cs:15 | `string.Length` counts UTF-16 code units: at least one and at most two per character, and exactly one per character when none is above U+FFFF |
| Models.ComprimentoValido | restaurante_C_api/Models/Reservation.cs:15 | `[StringLength(100)]` accepts null, never accepts more than 100 characters, and always accepts up to 50 |
| Models.EmojisContamADobrar | restaurante_C_api/Models/Reservation.cs:15 | characters above U+FFFF count twice, so a name of 60 emoji fails `[StringLength(100)]` |
| Models.AnotacoesValidas | restaurante_C_api/Models/Reservation.cs:14-32 | a record satisfying its annotations has a non-null name of 1 to 100 characters and a table number and party size of at least 1 |
| Models.ReservaPorOmissao | restaurante_C_api/Models/Reservation.cs:8-37 | `new ReservaModel()` has `DataCriacao` equal to the construction time, id 0 and a null name, and fails its own annotations |
| Models.NomeSoEspacosInvalido | restaurante_C_api/Models/Reservation.cs:14-16 | `[Required]` refuses a name made only of spaces even though it is not null |
| Models.MesaSemLimiteDeTrinta | restaurante_C_api/Models/Reservation.cs:26-32 | the `[Range(1, int.MaxValue)]` annotations accept table 31 and 21 people; the 30 and 20 caps exist only in the controller |
| Services.Filtrar | restaurante_C_api/Services/IReservationRepository.cs:48-56 | `Where` returns exactly the records that satisfy the filter, and never more than the table holds |
| Services.FiltrarConcatenacao | restaurante_C_api/Services/IReservationRepository.cs:48-56 | filtering distributes over concatenation, so the records come back in store order |
| Services.FiltrarTudo | restaurante_C_api/Controllers/ReservationsController.cs:69-79 | a filter every record passes returns the whole table unchanged |
| Services.IndiceDe | restaurante_C_api/Services/IReservationRepository.cs:60 | `Find` gives the first position holding the id, and nothing exactly when the id is absent |
| Services.IndiceUnico | restaurante_C_api/Models/Reservation.cs:10-12 | with the primary key unique, the only position holding an id is the one `Find` returns |
| Services.ProcurarPorId | restaurante_C_api/Services/IReservationRepository.cs:43-46 | the lookup returns a stored record with that id, and null exactly when no record has it |
| Services.Gravar | restaurante_C_api/Services/IReservationRepository.cs:30-36 | the stored record is the request with its id and `DataCriacao` replaced and every other field kept |
| Services.GravarEncontra | restaurante_C_api/Services/IReservationRepository.cs:30-46 | adding a record under an unused id keeps ids unique and adds exactly that id; a later lookup of the id returns the created record |
| Services.IdLivre | restaurante_C_api/Models/Reservation.cs:10-12 | some id is always free for the identity column to assign |
| Services.MaiorModulo | restaurante_C_api/Models/Reservation.cs:10-12 | bounds the size of every id in the table, so `IdLivre` can name an unused id |
| Services.Sobrescrever | restaurante_C_api/Services/IReservationRepository.cs:64-68 | the five assignments make the record equal to the request except for the stored `Id` and `DataCriacao` |
| Services.Atualizar | restaurante_C_api/Services/IReservationRepository.cs:58-72 | update returns null and leaves the table unchanged exactly when no record has the request's id; the table keeps its size |
| Services.AtualizarSoOAlvo | restaurante_C_api/Services/IReservationRepository.cs:58-72 | update rewrites only the record with the request's id and leaves every other record as it was. The ids stay the same and unique, and a lookup of the id returns the updated record |
| Services.Remover | restaurante_C_api/Services/IReservationRepository.cs:74-83 | delete returns true exactly when the id is present. On false the table is unchanged; on true it is one record shorter |
| Services.SemPosicao | restaurante_C_api/Services/IReservationRepository.cs:80 | removing one position keeps ids unique and drops the only record with that id |
| Services.SemPosicaoEFiltrar | restaurante_C_api/Services/IReservationRepository.cs:80 | with ids unique, removing the record at a position keeps every other record in order |
| Services.RemoverSoOAlvo | restaurante_C_api/Services/IReservationRepository.cs:74-83 | delete removes exactly the record with that id and keeps the rest in order. The ids stay unique minus that id, and a later lookup of the id returns null |
| Services.ReservaService.constructor | restaurante_C_api/Services/IReservationRepository.cs:25-28 | the service works over the table the database already holds, whose ids the primary key keeps unique |
| Services.ReservaService.CriarReserva | restaurante_C_api/Services/IReservationRepository.cs:30-36 | stamps `DataCriacao`, assigns an id no record has, appends exactly that record, returns it, and keeps ids unique |
| Services.ReservaService.ObterTodasReservas | restaurante_C_api/Services/IReservationRepository.cs:38-41 | returns the whole table in store order; an empty table gives an empty sequence, not null |
| Services.ReservaService.ObterReservaPorId | restaurante_C_api/Services/IReservationRepository.cs:43-46 | returns the stored record with that id, or null exactly when there is none; reads only |
| Services.ReservaService.ObterReservasPorMesa | restaurante_C_api/Services/IReservationRepository.cs:48-51 | returns exactly the stored records with that table number, on any date |
| Services.ReservaService.ObterReservasPorData | restaurante_C_api/Services/IReservationRepository.cs:53-56 | returns exactly the stored records whose `DataReserva.Date` equals the argument's `.Date` |
| Services.ReservaService.AtualizarReserva | restaurante_C_api/Services/IReservationRepository.cs:58-72 | overwrites the five fields of the record found by id in place, returns it, or returns null with nothing changed; keeps ids unique |
| Services.ReservaService.CancelarReserva | restaurante_C_api/Services/IReservationRepository.cs:74-83 | removes the record found by id and returns true, or returns false with nothing changed; keeps ids unique |
| Controllers.Conflita | restaurante_C_api/Controllers/ReservationsController.cs:48-50 | two reservations conflict exactly when their `DataReserva` are equal and the existing time lies strictly inside the 90-minute window either side of the requested time |
| Controllers.ExisteConflito | restaurante_C_api/Controllers/ReservationsController.cs:48-50 | the `Any` holds exactly when some fetched reservation has the same `DataReserva` and a time less than 90 minutes away |
| Controllers.ConflitaSimetrico | restaurante_C_api/Controllers/ReservationsController.cs:48-50 | the conflict test gives the same verdict with the two reservations swapped |
| Controllers.NoventaMinutosNaoConflita | restaurante_C_api/Controllers/ReservationsController.cs:50 | a gap of exactly 90 minutes is not a conflict, and a gap one tick shorter is |
| Controllers.DatasDiferentesNaoConflitam | restaurante_C_api/Controllers/ReservationsController.cs:49 | reservations whose `DataReserva` differ never conflict |
| Controllers.MesmoDiaNaoBasta | restaurante_C_api/Controllers/ReservationsController.cs:49 | two reservations can share a date part, as the filters see it, and still not conflict, because create compares `DataReserva` in full |
| Controllers.Recusa | restaurante_C_api/Controllers/ReservationsController.cs:30-53 | create's checks refuse only with BadRequest or Conflict, and let a request through exactly when the body is not null, the table number is in 1..30, the party size in 1..20, and no stored reservation on its table conflicts with it |
| Controllers.RecusaCorpoNulo | restaurante_C_api/Controllers/ReservationsController.cs:30-33 | a null body is answered BadRequest before any other check, whatever the table holds |
| Controllers.RecusaMesa | restaurante_C_api/Controllers/ReservationsController.cs:35-38 | a table number outside 1..30 is answered BadRequest for the table, whatever the party size (so both invalid gives the table error) and whatever the table holds |
| Controllers.RecusaPessoas | restaurante_C_api/Controllers/ReservationsController.cs:40-43 | with a valid table number, a party size outside 1..20 is answered BadRequest for the party size |
| Controllers.RecusaConflito | restaurante_C_api/Controllers/ReservationsController.cs:46-53 | a request that passes the guards gets Conflict exactly when some stored reservation on the same table conflicts with it. Otherwise it goes on to be created |
| Controllers.GuardasDentroDasAnotacoes | restaurante_C_api/Controllers/ReservationsController.cs:35-43 | a request with a well-formed name that passes the table and party-size guards satisfies every annotation of the record |
| Controllers.ExemplosDeRecusa | restaurante_C_api/Controllers/ReservationsController.cs:30-53 | worked verdicts with 18:30 stored on table 5: 19:00 conflicts, table 35 gets the table error and 25 people the party-size error (the cases the controller tests check); 20:00, exactly 90 minutes later, and 18:30 on the next day are accepted |
| Controllers.CriarPreservaSemConflitos | restaurante_C_api/Controllers/ReservationsController.cs:46-61 | a request create accepts, once stored, keeps a table in which no two reservations on one table conflict free of conflicts |
| Controllers.AtualizarPermiteConflito | restaurante_C_api/Services/IReservationRepository.cs:58-72 | update does not re-check the 90-minute rule, so it can leave two conflicting reservations on one table |
| Controllers.AtualizarAceitaForaDeIntervalo | restaurante_C_api/Services/IReservationRepository.cs:58-72 | update does not re-check the 1..30 and 1..20 ranges: an existing record takes whatever table number and party size the request carries |
| Controllers.RecusaAtualizacao | restaurante_C_api/Controllers/ReservationsController.cs:105-108 | update refuses before the store only with the one BadRequest, and exactly when the body is null or its Id is not the route's id |
| Controllers.RespostaCriacao | restaurante_C_api/Controllers/ReservationsController.cs:55-61 | create answers Created with exactly the record the store returned, and ServerError exactly when the store returns null |
| Controllers.RespostaRegisto | restaurante_C_api/Controllers/ReservationsController.cs:88-116 | get and update answer NotFound exactly when the store returns null, and Ok with the store's record otherwise |
| Controllers.RespostaCancelamento | restaurante_C_api/Controllers/ReservationsController.cs:126-131 | cancel answers NotFound exactly on false and NoContent exactly on true |
| Controllers.ListagemVazia | restaurante_C_api/Controllers/ReservationsController.cs:69-79 | an empty store lists as Ok with an empty list, with or without a date |
| Controllers.ReservasController.constructor | restaurante_C_api/Controllers/ReservationsController.cs:16-19 | the controller works over the store it is given |
| Controllers.ReservasController.CriarReserva | restaurante_C_api/Controllers/ReservationsController.cs:28-62 | when `Recusa` refuses, create answers with that refusal and leaves the table untouched. Otherwise it answers Created with the request, stamped and given an unused id, appended as the table's only change |
| Controllers.ReservasController.ObterTodasReservas | restaurante_C_api/Controllers/ReservationsController.cs:69-79 | always Ok with a list. Without a date it is the whole table; with one, exactly the records whose `DataReserva.Date` matches, in store order |
| Controllers.ReservasController.ObterReservaPorId | restaurante_C_api/Controllers/ReservationsController.cs:86-95 | NotFound exactly when no record has the id; otherwise Ok with the record the store's lookup finds for it |
| Controllers.ReservasController.AtualizarReserva | restaurante_C_api/Controllers/ReservationsController.cs:103-117 | a null body or `body.Id != id` is BadRequest with the table untouched. Otherwise the table is updated and the store's answer mapped to NotFound or Ok |
| Controllers.ReservasController.CancelarReserva | restaurante_C_api/Controllers/ReservationsController.cs:124-132 | NoContent exactly when the id was present, NotFound otherwise; the table is what delete leaves |
| Controllers.ReservasController.ObterReservasPorData | restaurante_C_api/Controllers/ReservationsController.cs:138-142 | the by-date endpoint gives the same answer as the listing filtered by that date |

Three example runs through the controller, each from an empty table, are checked as methods. In `Controllers.CenarioConflito`, Maria's 18:30 reservation on table 5 is created and João's 19:00 request on the same table gets Conflict. In `Controllers.CenarioNoventaMinutos`, João asks for 20:00 instead and his reservation is created beside hers. In `Controllers.CenarioAtualizarCancelar`, an update with a mismatched id gets BadRequest, cancelling Maria's reservation gives NoContent, and a later get of her id gives NotFound. These are examples of the model, not transcriptions of the C# tests.

## Left out

- HTTP plumbing: routing, model binding, status codes, Swagger attributes and the exact message strings. The three BadRequest messages are kept apart as `ErroPedido` values.
- Automatic model validation: `[ApiController]` answers 400 before an action runs when a body fails its data annotations. The annotations are modelled as `AnotacoesValidas`, and the actions are modelled as written. Tests call the actions directly.
- EF Core: change tracking, `AsNoTracking`, `SaveChanges` and its exceptions are left out, and so is database failure. The DbSet is a sequence in store order. The real store never returns null from create, so the ServerError branch is stated on `RespostaCriacao` for any store answer.
- Aliasing: the C# service hands back the tracked entity, and it mutates the caller's object on create (`DataCriacao` and the generated `Id`). The model uses record values instead, so a later change to a returned object does not reach the table.
- Id generation: a database identity column. The model picks any id not in the table and says nothing about its order. Inserting an explicit non-zero `Id` on create makes the database refuse; that is not modelled.
- `DateTime.Now` is passed in as `agora`.
- The `double` of `TimeSpan.TotalMinutes` is replaced by exact tick arithmetic. This gives the same verdict, because a tick gap below 90 minutes stays below 90.0 after the division.
- `TimeSpan` overflow on subtraction, and `DateTime.MaxValue`, are not modelled. Ticks are unbounded integers.
- `char.IsWhiteSpace` is written out as the list of Unicode separators and control characters it accepts (`EspacoEmBranco`); the model's characters are Unicode scalar values, and `string.Length` is recomputed from them as UTF-16 code units.
- 32-bit `int` widths of `Id`, `NumeroMesa` and `NumeroPessoas`: no arithmetic is done on them, and the `[Range]` upper bound `int.MaxValue` is kept as a constant.
- Concurrency: the check-then-create sequence of create is not atomic in the source. The model is sequential.
- Pagination: no shipped code implements it.
- Program.cs (bootstrap, dependency injection) and AppDbContext.cs (schema settings duplicating the annotations) are not part of this model.
