# Hospital records app: data layer, schema and screen rules

This project models the core of a React Native (Expo) app that keeps hospital records in a local
SQLite file `hospital.db`. The file holds:

- patients;
- three reference tables of types (health-data types, consultation types, examination types);
- three fact tables (health data, consultations, examinations), each pointing at a patient and a type;
- attachments, which point at a fact by kind and id.

The model covers six pieces:

- **The data-access module** (`src/db/index.ts`).
  - The cached database handle, the `isInitialized` flag and the single in-flight `initPromise`
    become the class `DataAccess.DataLayer`. Its methods are proved against the pure functions
    `Ensured`, `Ran` and `Queried`.
  - The rule that governs those three variables is the state machine `DbState`.
  - `initDatabase` splits the schema text on `;` and executes the non-blank pieces in order
    (`DbScript`).
  - `seedDatabase` inserts each fixture only into an empty table and swallows every error
    (`DbSeed`).
- **The schema** (`src/db/schema.ts`). `Schema` holds the eight tables as data: keys, NOT NULL
  columns, defaults, the one CHECK, and foreign keys that cascade on delete. It also renders the
  exact script text.
- **The relational store.**
  - `Store` gives the statements the app issues (INSERT, UPDATE, DELETE, SELECT, COUNT) their
    meaning on in-memory tables of rows.
  - `StoreLaws`, `StatementLaws` and `Cascade` prove what those statements guarantee:
    auto-increment keys, constraint checks, and one-level cascades.
- **The screens' write rules.** The patient detail, patient list, attachment manager and settings
  screens each have:
  - a pure function from form fields to the statement the form issues, or to none when a
    required field is blank;
  - lemmas saying what that statement does to the file;
  - a screen class whose methods issue the statements and reload their lists.
- **Small pure helpers.**
  - `calculateAge` on calendar days;
  - the patient search filter;
  - the image-extension test;
  - the type picker's lookup;
  - the dashboard's count reader.
- **The theme context.** The light or dark mode, its palette, and the copy of the mode kept in
  the device's storage.

Input and output become parameters:

- `Env` carries whether the file opens, and the date and time.
- Alert confirmations are a `confirmed` flag.
- The camera and the document picker are `granted`, `shot` and `picked`.
- Storage reads and writes are `readOk` and `writeOk`.

## Model

| member | source | states |
|---|---|---|
| DbState.EntryOf | src/db/index.ts:21-28 | A call starts `initDatabase` exactly from the idle state, and returns at once exactly when initialised |
| DbState.Settled | src/db/index.ts:28-31 | A settled init is ready exactly when `initDatabase` resolved, and failed with its error when it rejected |
| DbState.NeverIdleAgain | src/db/index.ts:20-32 | Once the module leaves its idle state, no sequence of calls and settlements brings it back |
| DbState.NoStartOutsideIdle | src/db/index.ts:23-28 | Only a call in the idle state starts `initDatabase`; a call with a promise in flight awaits it instead |
| DbState.AtMostOneInit | src/db/index.ts:20-32 | Over any interleaving of calls and settlements, `initDatabase` is started at most once |
| DbState.FailureIsFinal | src/db/index.ts:28-31 | After a rejected init the state stays failed forever and every later call rethrows; there is no retry |
| DbState.ReadyIsFinal | src/db/index.ts:21-31 | After a successful init the state stays ready and every call returns at once |
| DbState.CallThenSettle | src/db/index.ts:20-32 | A call then a settlement: from idle or in flight the state becomes the settlement's; a ready or failed state stays as it was |
| DataAccess.Created | src/db/index.ts:74-79 | The database after the creation script has enforcement on and every table of the schema |
| DataAccess.ScriptCreates | src/db/index.ts:74-79 | Executing the creation script's text, statement by statement, succeeds and leaves exactly `Created`'s database |
| DataAccess.StatementStep | src/db/index.ts:75-79 | A blank piece is skipped; a piece that fails stops the loop |
| DataAccess.ReachedAll | src/db/index.ts:75-79 | When no statement fails, the loop leaves exactly the database the whole script produces |
| DataAccess.Answered | src/db/index.ts:44-49 | A query answers with the engine's result, and an engine error becomes the error it rethrows |
| DataAccess.RowsOf | src/db/index.ts:44-49 | The rows of an answered `SELECT`, and none for a count or an error |
| DataAccess.CreatedComplete | src/db/index.ts:74-79 | The script changes nothing on a file that already has every table and enforcement on |
| DataAccess.CreatedSeeded | src/db/index.ts:74-82 | The script changes nothing on a file left by any previous start |
| DataAccess.RestartChangesNothing | src/db/index.ts:69-160 | Restarting over a file a previous start initialised changes nothing: the tables exist and the seed inserts nothing |
| DataAccess.CreatedNew | src/db/index.ts:74-79 | On a new file the script creates every table, empty, and turns enforcement on |
| DataAccess.FirstStart | src/db/index.ts:69-160 | The first start on a new file stores each entity fixture and the five example facts under keys from 1, and leaves consultations, examinations and attachments empty |
| DataAccess.Ensured | src/db/index.ts:20-32 | `ensureInitialized` on the layer: what the call returns and the layer after it |
| DataAccess.Ran | src/db/index.ts:53-67 | `run` initialises first, then applies the statement; every error is rethrown |
| DataAccess.Queried | src/db/index.ts:34-51 | `query` initialises first, then evaluates; every error is rethrown |
| DataAccess.EnsuredOnce | src/db/index.ts:20-32 | A second call changes nothing and settles as the first did, whatever the device does: one init at most, and no retry |
| DataAccess.EnsuredSteps | src/db/index.ts:20-32 | The call follows the `DbState` machine: one call event, then its settlement |
| DataAccess.EnsuredCases | src/db/index.ts:20-32 | A ready layer returns at once and a failed one rethrows, both without touching the file; otherwise the file is opened, created and seeded, or the open fails |
| DataAccess.RanAfterInit | src/db/index.ts:53-67 | `run` succeeds only on a ready layer, and rethrows the cached error while a rejected init is cached |
| DataAccess.RanReady | src/db/index.ts:56-62 | On a ready layer `run` is one engine statement: applied, or refused with no effect |
| DataAccess.QueriedAfterInit | src/db/index.ts:34-51 | `query` answers only on a ready layer; a query never changes the file |
| DataAccess.DataLayer.constructor | src/db/index.ts:4-6 | The module as loaded: no handle, not initialised, no promise |
| DataAccess.DataLayer.GetDb | src/db/index.ts:8-18 | The file is opened on the first successful call and the handle is kept; a failed open leaves no handle and rethrows |
| DataAccess.DataLayer.RunStatement | src/db/index.ts:59-61 | `runAsync`: the statement's effect, or an error and the database as it was |
| DataAccess.DataLayer.InsertWhenEmpty | src/db/index.ts:106-112 | The fixture is inserted exactly when the count read was 0 |
| DataAccess.DataLayer.SeedEntities | src/db/index.ts:101-134 | The four reference inserts in source order, each exactly when its table was empty; an error skips the rest |
| DataAccess.DataLayer.SeedExamples | src/db/index.ts:137-155 | The example facts, consultations and examinations in order; an error skips the rest |
| DataAccess.DataLayer.SeedDatabase | src/db/index.ts:90-160 | The file ends as `DbSeed.Seed` says; every error is swallowed |
| DataAccess.DataLayer.ExecStatements | src/db/index.ts:75-79 | Each non-blank piece is executed trimmed, in order, stopping at the first error |
| DataAccess.DataLayer.InitDatabase | src/db/index.ts:69-87 | Open, run the script, then seed; an open error is rethrown, and the script never fails in the model |
| DataAccess.DataLayer.EnsureInitialized | src/db/index.ts:20-32 | The new state is `Ensured` of the old one, so the `DbState` lemmas apply to it |
| DataAccess.DataLayer.Query | src/db/index.ts:34-51 | The answer and the new state are `Queried` of the old state |
| DataAccess.DataLayer.Run | src/db/index.ts:53-67 | The outcome and the new state are `Ran` of the old state |
| DbScript.NonBlank | src/db/index.ts:74 | `filter(s => s.trim())`: exactly the pieces that are not all white space, in order |
| DbScript.NonBlankDropsLast | src/db/index.ts:74 | When only the last piece is blank, only that piece is dropped |
| DbScript.ScriptStatements | src/db/index.ts:74-77 | The script's non-blank pieces, trimmed, are exactly nine statement texts: the PRAGMA, then the eight CREATE TABLE |
| DbScript.ExecEffect | src/db/index.ts:77 | The rendered text of a statement, executed, has exactly that statement's effect |
| DbScript.ExecRendered | src/db/index.ts:75-79 | Executing rendered texts in order never fails and has exactly their combined effect |
| DbScript.AfterScriptTables | src/db/schema.ts:1-74 | After some statements, tables present before are unchanged and each missing created one is added empty |
| DbScript.RunScript | src/db/schema.ts:1-74 | Executing the script's text has exactly the effect of its nine statements: enforcement on, every missing table created empty, existing ones left as they were |
| DbSeed.SafeParseIntOfNumber | src/db/index.ts:95-98 | A number count is read back as it is, 0 included |
| DbSeed.SafeParseIntOfFalsy | src/db/index.ts:96 | A missing count (`undefined`, `null`, `''`, `false`) reads as 0 |
| DbSeed.SafeParseIntOfNaN | src/db/index.ts:97 | A text with no leading digits reads as 0 |
| DbSeed.CountOfTable | src/db/index.ts:101-104 | The count read for an existing table is its number of rows; a missing table gives an error |
| DbSeed.FixturesComplete | src/db/index.ts:106-134 | Every fixture row names only declared non-key columns and fills every NOT NULL column |
| DbSeed.DonneesComplete | src/db/index.ts:139-145 | The five example facts name declared columns and fill the NOT NULL ones |
| DbSeed.VisitRejected | src/db/index.ts:147 | An example consultation names `diagnostic`, the first column `consultations` lacks |
| DbSeed.ConsultationsRejected | src/db/index.ts:147-150 | The example consultations insert fails, so the seed stops before the example examinations |
| DbSeed.ConsultationsNeverStored | src/db/index.ts:147-155 | On any database, the seed stores no consultation and no examination |
| DbSeed.RunAllExtends | src/db/index.ts:106-155 | A run of INSERTs only adds rows: every table keeps its rows as a prefix |
| DbSeed.RunAllLeaves | src/db/index.ts:106-155 | A run of INSERTs leaves every table it does not insert into as it was |
| DbSeed.RunAllKeyed | src/db/index.ts:106-155 | Keys stay increasing in every table through a run of statements |
| DbSeed.RunAllReferential | src/db/index.ts:106-155 | With enforcement on, a run of INSERTs keeps every reference pointing at a row |
| DbSeed.InsertEntity | src/db/index.ts:106-134 | An INSERT of complete rows into a table without foreign keys always succeeds |
| DbSeed.InsertIfEmptyRuns | src/db/index.ts:106-112 | A conditional insert adds its fixture exactly when the count read was 0 |
| DbSeed.EntityStepsRun | src/db/index.ts:106-134 | The four reference inserts never fail once the tables exist, and fill exactly the empty tables |
| DbSeed.EntitySeededExtends | src/db/index.ts:106-134 | The reference phase only adds rows |
| DbSeed.EntitySeededLeaves | src/db/index.ts:106-134 | The reference phase changes no table other than the four entity tables |
| DbSeed.EntitySeededAt | src/db/index.ts:106-134 | Each entity table gets its fixture exactly when its own count was 0; the four decisions are independent |
| DbSeed.SampleStops | src/db/index.ts:137-155 | The example phase stops at the consultations at the latest: the example facts are added if their insert succeeds, nothing otherwise |
| DbSeed.EntityCountsRead | src/db/index.ts:101-104 | The four counts are read without error exactly when the four tables exist |
| DbSeed.SeedPhases | src/db/index.ts:90-160 | Once the entity tables exist, the seed is the reference phase followed by the example phase |
| DbSeed.SeedWithoutEntityTables | src/db/index.ts:101-159 | Without the entity tables the first count throws, the error is swallowed and nothing changes |
| DbSeed.ExamplesNotWanted | src/db/index.ts:137-138 | A non-empty `donnees_sanitaires` skips the whole example phase, whatever the other counts |
| DbSeed.ExamplesSkipped | src/db/index.ts:138-159 | When the facts are not wanted or their insert fails, the example phase changes nothing |
| DbSeed.ExamplesAdded | src/db/index.ts:138-150 | When wanted and accepted, exactly the example facts are added, then the phase stops at the consultations |
| DbSeed.ExamplesExtends | src/db/index.ts:137-155 | The example phase only adds rows, and only to `donnees_sanitaires` |
| DbSeed.SeedEntityTable | src/db/index.ts:101-134 | Each entity table gets its 3/3/2/2 fixture rows under the next keys exactly when its count, read before any insert, was 0 |
| DbSeed.SeedExtends | src/db/index.ts:90-160 | The seed adds rows and nothing else; the enforcement flag is unchanged |
| DbSeed.SeedLeaves | src/db/index.ts:90-160 | The seed never changes consultations, examinations or attachments |
| DbSeed.SeedKeepsDonnees | src/db/index.ts:137-138 | With example facts already present, `donnees_sanitaires` is left as it was |
| DbSeed.DonneesParentsExist | src/db/index.ts:139-145 | The example facts reference patients 1 and 2 and data types 1 to 3 |
| DbSeed.SeededParents | src/db/index.ts:106-145 | Once the patients and data types were inserted from key 1, every example fact has its parents |
| DbSeed.FreshEntity | src/db/index.ts:106-134 | On a fresh database each entity table receives exactly its fixture, under keys 1, 2, … |
| DbSeed.FreshParents | src/db/index.ts:106-120 | After the reference phase on a fresh database, patients 1-2 and data types 1-3 exist |
| DbSeed.ExamplesOnEmpty | src/db/index.ts:138-145 | On an empty `donnees_sanitaires` whose parents exist, the five facts are stored under keys 1 to 5 |
| DbSeed.DonneesAccepted | src/db/index.ts:139-145 | The example facts are accepted once their table and, under enforcement, their parents exist |
| DbSeed.FreshExamples | src/db/index.ts:137-145 | On a fresh database the example phase stores the five facts under keys 1 to 5 |
| DbSeed.PhasedFreshEntity | src/db/index.ts:106-134 | On a fresh database the seed gives each entity table exactly its fixture |
| DbSeed.PhasedFreshUntouched | src/db/index.ts:147-155 | On a fresh database consultations, examinations and attachments stay empty |
| DbSeed.PhasedFreshAt | src/db/index.ts:90-160 | The seed's effect on a fresh database, table by table |
| DbSeed.SeedFresh | src/db/index.ts:90-160 | First start: 3 patients, 3/2/2 types and the 5 example facts under keys from 1; the other tables stay empty |
| DbSeed.EntitySeededStocked | src/db/index.ts:106-134 | Over four non-empty entity tables the reference phase inserts nothing |
| DbSeed.FillIfNonEmpty | src/db/index.ts:106-134 | After its fill an entity table is non-empty, whether it was empty before or not |
| DbSeed.PhasedStocked | src/db/index.ts:106-134 | Once the seed has run, none of the four entity tables is empty |
| DbSeed.ExamplesTwice | src/db/index.ts:137-155 | A second example phase changes nothing |
| DbSeed.SeedTwice | src/db/index.ts:90-160 | Seeding a database the seed already ran on changes nothing |
| DbSeed.SeedStocked | src/db/index.ts:101-138 | With the entity tables and the example facts non-empty, the seed inserts nothing |
| DbSeed.SeedInvariants | src/db/index.ts:90-160 | The seed keeps keys increasing in every table and, with enforcement on, every reference valid |
| Schema.Segments | src/db/schema.ts:1-74 | The script's pieces between `;`: a line break with the PRAGMA, each CREATE TABLE after a blank line, then a final line break |
| Schema.ParseFrom | src/db/schema.ts:1-74 | Text is read as the statement of the script, from position `i` on, that renders to it |
| Schema.RenderClean | src/db/schema.ts:1-74 | No statement text contains `;`, so splitting never cuts a statement in two |
| Schema.RenderTrimmed | src/db/schema.ts:2-73 | Every statement text starts and ends with a non-space character |
| Schema.SplitScript | src/db/schema.ts:1-74 | Splitting the script text at `;` gives back exactly its segments |
| Schema.TrimSegments | src/db/schema.ts:1-74 | Trimmed, the segments are the nine statement texts followed by one blank |
| Schema.PragmaIsNotCreate | src/db/schema.ts:2 | The PRAGMA's text is no CREATE TABLE text |
| Schema.CreateTextsDistinct | src/db/schema.ts:4-73 | No two tables share a CREATE TABLE text |
| Schema.ParsePragma | src/db/schema.ts:2 | The PRAGMA is read back from its text |
| Schema.ParseCreate | src/db/schema.ts:4-73 | Each CREATE TABLE is read back from its text |
| Schema.ParseRender | src/db/schema.ts:1-74 | Every statement of the script is read back from its text |
| Schema.KeyIsFirst | src/db/schema.ts:5-67 | The first column of each table is its AUTOINCREMENT primary key, and no other column is a key |
| Schema.NotNullEntityColumns | src/db/schema.ts:6-50 | NOT NULL columns: `nom` and `prenom` for patients, `nom_type` for each type table |
| Schema.NotNullFactColumns | src/db/schema.ts:24-70 | NOT NULL columns: the fact tables' patient and type ids, `valeur`, and the attachment's kind, id and URL |
| Schema.ConsultationsColumnSet | src/db/schema.ts:38-46 | `consultations` has exactly consultation_id, patient_id, type_consultation_id, date_consultation and notes; no `diagnostic` or `traitement` |
| Schema.FormTablesColumnSets | src/db/schema.ts:4-64 | The column lists of the tables the patient screen's forms write |
| Schema.ColumnNamesDistinct | src/db/schema.ts:4-73 | No table has two columns with the same name |
| Schema.NotNullHasNoDefault | src/db/schema.ts:4-73 | NOT NULL columns are neither the key nor columns with a default |
| Schema.ForeignKeyTargetsFirst | src/db/schema.ts:4-54 | Every foreign key targets the primary key of a table created earlier in the script, and bears its name |
| Schema.AllForeignKeysCascade | src/db/schema.ts:28-63 | Every foreign key is ON DELETE CASCADE; none restricts |
| Schema.CascadeIsOneLevel | src/db/schema.ts:4-64 | Referenced tables have no foreign keys, so a cascade never goes past one level |
| Schema.AttachmentsUnlinked | src/db/schema.ts:66-73 | `pieces_jointes` has no foreign key and nothing references it |
| Schema.CibleTypeCheck | src/db/schema.ts:68 | The one CHECK restricts `cible_type` to 'donnee', 'consultation' and 'examen' |
| Store.Unknown | src/db/schema.ts:4-73 | The first named column the table does not declare, if any |
| Store.Lookup | src/db/schema.ts:4-73 | The value the first assignment to a column gives, if any |
| Store.FirstNull | src/db/schema.ts:6-70 | The first NOT NULL column a row leaves NULL, if any |
| Store.FirstRejected | src/db/schema.ts:68 | The first column whose CHECK rejects the row, if any |
| Store.Violation | src/db/schema.ts:2-73 | The constraint a row breaks, checked in SQLite's order: NOT NULL, CHECK, then (with enforcement on) foreign keys |
| Store.Overwrite | src/db/schema.ts:4-73 | An UPDATE's SET clause changes the columns it names and no other |
| Store.Updated | src/db/schema.ts:4-73 | An UPDATE rewrites the matching rows in place and keeps the others |
| Store.UpdateViolation | src/db/schema.ts:2-73 | The first constraint an overwritten row breaks |
| Store.Matching | src/db/schema.ts:4-73 | A WHERE clause selects exactly the rows satisfying it, in table order |
| Store.Remaining | src/db/schema.ts:4-73 | A DELETE keeps exactly the rows its WHERE clause does not select |
| Store.Survivors | src/db/schema.ts:28-63 | The rows of a table that no cascading foreign key ties to a deleted row |
| StoreLaws.InsertAppends | src/db/schema.ts:5-67 | A successful INSERT appends the row it builds to its table |
| StoreLaws.NewRowCell | src/db/schema.ts:4-73 | A fresh row holds the new key in the key column, each named column's value, and defaults elsewhere |
| StoreLaws.NewRowKey | src/db/schema.ts:5-67 | A fresh row's key column holds the new key |
| StoreLaws.InsertRowFresh | src/db/schema.ts:5-67 | AUTOINCREMENT: a new key is the counter plus one, greater than every key issued before |
| StoreLaws.AppendKeepsKeyed | src/db/schema.ts:5-67 | Appending under the next key keeps a table's keys increasing and below its counter |
| StoreLaws.FilterKeepsKeyed | src/db/schema.ts:5-67 | Removing rows keeps a table well keyed |
| StoreLaws.UpdateKeepsKeys | src/db/schema.ts:5-67 | An UPDATE never changes a key |
| StoreLaws.AfterDeleteKeyed | src/db/schema.ts:28-63 | Every table stays well keyed through a cascading delete |
| StoreLaws.ApplyKeepsKeyed | src/db/schema.ts:5-67 | Every successful statement keeps every table well keyed |
| StoreLaws.ReferencesSurvive | src/db/schema.ts:28-63 | Valid references stay valid while no key disappears |
| StoreLaws.AppendKeepsReferential | src/db/schema.ts:28-63 | Appending a row whose references hold keeps the database sound |
| StoreLaws.ReplaceKeepsReferential | src/db/schema.ts:28-63 | Rewriting rows in place, keys kept and references holding, keeps the database sound |
| StoreLaws.NeverRestricted | src/db/schema.ts:28-63 | With every foreign key cascading, no delete is refused because of dependents |
| StoreLaws.SurvivorsAll | src/db/schema.ts:66-73 | A table with no foreign key into the deleted table loses nothing |
| StoreLaws.DeletedRowsWereThere | src/db/schema.ts:28-63 | A delete only removes rows |
| StoreLaws.ReferencedParentSurvives | src/db/schema.ts:28-63 | A parent still referenced by a surviving row survives the delete |
| StoreLaws.ParentSurvives | src/db/schema.ts:28-63 | The parent a surviving row names is still there after the delete |
| StoreLaws.SurvivingReference | src/db/schema.ts:28-63 | Every reference of a surviving row still holds after the delete |
| StoreLaws.ApplyKeepsReferential | src/db/schema.ts:2-63 | With enforcement on, every successful statement keeps every foreign key pointing at a row |
| StatementLaws.SelectFails | src/db/schema.ts:4-73 | A SELECT on an existing table fails exactly when its WHERE clause names an unknown column |
| StatementLaws.SelectRows | src/db/schema.ts:4-73 | A SELECT returns exactly the rows satisfying its WHERE clause, in table order |
| StatementLaws.CountIsSelectAll | src/db/index.ts:101-104 | `COUNT(*)` is the number of rows `SELECT *` returns |
| StatementLaws.NullReportedFirst | src/db/schema.ts:6-70 | A row breaking NOT NULL is reported as such before any other constraint |
| StatementLaws.InsertRowRejects | src/db/schema.ts:2-73 | An INSERT with valid columns fails with the first constraint its row breaks |
| StatementLaws.InsertColumnsAccepted | src/db/schema.ts:4-73 | An INSERT's column list is accepted exactly when it names only non-key columns of the table |
| StatementLaws.InsertStoresValues | src/db/schema.ts:12-72 | An inserted row holds the new key, each given value, and each column's default (NULL, the date, or the date and time) |
| StatementLaws.MissingRequiredFails | src/db/schema.ts:6-70 | An INSERT that omits a NOT NULL column, or gives it NULL, fails on NOT NULL |
| StatementLaws.CheckRejected | src/db/schema.ts:68 | A row holding a string the CHECK does not list breaks a constraint |
| StatementLaws.CheckedValueFails | src/db/schema.ts:68 | An INSERT giving `cible_type` a value outside the three kinds is refused |
| StatementLaws.NoCheckOutsideAttachments | src/db/schema.ts:4-73 | Only `pieces_jointes` has a CHECK |
| StatementLaws.NewRowReference | src/db/schema.ts:28-63 | A foreign-key column of a fresh row holds the value the INSERT gives it |
| StatementLaws.CompleteRow | src/db/schema.ts:6-70 | A complete INSERT builds a row with no NOT NULL column NULL |
| StatementLaws.UncheckedRow | src/db/schema.ts:4-64 | Outside `pieces_jointes`, no row breaks a CHECK |
| StatementLaws.ReferencingRow | src/db/schema.ts:28-63 | A fresh row whose foreign keys name existing rows keeps its references |
| StatementLaws.CheckedAccepted | src/db/schema.ts:2-73 | A row that breaks no constraint is appended |
| StatementLaws.InsertAccepted | src/db/schema.ts:2-73 | An INSERT is accepted when its columns are valid, its NOT NULL columns filled and its references hold |
| StatementLaws.NewRows | src/db/schema.ts:5-67 | A multi-row INSERT builds one row per value tuple under consecutive keys |
| StatementLaws.NewRowsAt | src/db/schema.ts:5-67 | Row `i` of a multi-row INSERT is built from tuple `i` under key `id + i` |
| StatementLaws.InsertRowsStored | src/db/index.ts:107-155 | A successful multi-row INSERT stores its rows in order under the keys after the counter and changes no other table |
| StatementLaws.InsertRowsSucceed | src/db/index.ts:107-155 | A multi-row INSERT into a table without a CHECK succeeds when every row is accepted |
| StatementLaws.InsertRowsAccepted | src/db/index.ts:107-155 | A multi-row INSERT with every row accepted stores them all, in order, under consecutive keys |
| StatementLaws.ExecPragma | src/db/schema.ts:2 | The PRAGMA turns enforcement on and changes nothing else |
| StatementLaws.ExecCreate | src/db/schema.ts:4-73 | `CREATE TABLE IF NOT EXISTS` adds the table empty when missing and otherwise changes nothing |
| StatementLaws.ExecOther | src/db/index.ts:77 | Text that is not a statement of the script is refused |
| Cascade.InGone | src/db/schema.ts:5-67 | `WHERE <key> = id` selects exactly the rows holding that key |
| Cascade.OrphanedRefersTo | src/db/schema.ts:28-63 | A row removed along with a deleted row references its key |
| Cascade.RefersToOrphaned | src/db/schema.ts:28-63 | A row referencing the key of the deleted row is removed with it |
| Cascade.DeleteByKey | src/db/schema.ts:28-63 | With enforcement on, a delete by key always succeeds: it removes the rows with that key and exactly the rows referencing it; key counters do not move |
| Cascade.UnrelatedUnchanged | src/db/schema.ts:66-73 | A table with no foreign key into the deleted table is unchanged |
| Cascade.RefersToKey | src/db/schema.ts:28-63 | Each foreign-key column is named after the key it references |
| Cascade.ReferencingTables | src/db/schema.ts:28-63 | Only the fact tables reference anything: patients and their own type table |
| Cascade.ReferencedKeyExists | src/db/schema.ts:28-63 | In a sound database a stored reference names an existing key |
| Cascade.DeleteByKeyCascades | src/db/schema.ts:28-63 | Deleting key `id` removes that row and, from each referencing table, exactly the rows holding `id`; other tables are unchanged |
| Cascade.DeletePatient | src/db/schema.ts:28-62 | Deleting a patient removes exactly their health data, consultations and examinations; types and attachments stay |
| Cascade.DeleteDataType | src/db/schema.ts:29 | Deleting a health-data type removes exactly the data of that type; it is never refused |
| Cascade.DeleteLeafRow | src/db/schema.ts:22-73 | A delete in a fact table or in attachments removes exactly the rows with that key and cascades nowhere |
| Lists.Filter | src/screens/PatientsListScreen.tsx:44 | `filter` keeps exactly the elements that pass |
| Lists.FilterIsSubsequence | src/screens/PatientsListScreen.tsx:44 | The filtered list keeps the order of the original |
| Lists.FilterAll | src/screens/PatientsListScreen.tsx:44 | When everything passes, the filter changes nothing |
| Lists.Find | src/components/TypePicker.tsx:23 | `find` gives the first passing element, and nothing when none passes |
| JsText.Trim | src/db/index.ts:76-77 | `trim()` is the slice left once white space is removed from both ends |
| JsText.TrimEmptyIffAllSpace | src/screens/PatientDetailScreen.tsx:424 | A string is falsy after trimming exactly when it is all white space |
| JsText.TrimIdempotent | src/db/index.ts:76-77 | Trimming twice is trimming once |
| JsText.ToLower | src/screens/PatientsListScreen.tsx:45-46 | `toLowerCase()` maps each character to its lower case (ASCII, Latin-1, Œ and Ÿ), keeping the length |
| JsText.IncludesEmpty | src/screens/PatientsListScreen.tsx:44-47 | Every string includes the empty string |
| JsText.Split | src/db/index.ts:74 | `split(';')` gives the maximal separator-free pieces, empty ones included |
| JsText.SplitJoin | src/db/index.ts:74 | Splitting undoes joining when no piece holds the separator |
| JsValue.ParseInt | src/screens/AccueilScreen.tsx:29 | `parseInt(s, 10)`: skip leading white space, read one sign and the digits; no digit is NaN |
| JsValue.ParseIntOfString | src/db/index.ts:96 | `parseInt(String(n), 10)` is `n` for every integer `n` |
| Writes.TrimOrNull | src/screens/PatientDetailScreen.tsx:429-430 | `s.trim() \|\| null`: the trimmed text, or NULL for blank input |
| Writes.OrNull | src/screens/PatientsListScreen.tsx:171 | `s \|\| null`: the text as typed, or NULL for the empty text |
| Writes.FilledIffNotBlank | src/screens/PatientDetailScreen.tsx:424-430 | A trimmed-or-null value is NULL exactly when the text is blank |
| Writes.UpdateByKey | src/screens/PatientDetailScreen.tsx:429-430 | A successful UPDATE by key rewrites exactly the rows holding that key, in place, and changes no other table |
| Writes.InsertOne | src/screens/PatientsListScreen.tsx:169-172 | A successful one-row INSERT appends one row under the next key holding each given value; other tables are unchanged |
| PatientDetail.CalculateAge | src/screens/PatientDetailScreen.tsx:29-40 | 0 without a birth date; otherwise the year difference, or one less while this year's birthday is still to come |
| PatientDetail.AgeOnBirthday | src/screens/PatientDetailScreen.tsx:33-40 | On the birthday the age is exactly the difference of the years |
| PatientDetail.AgeIsCompletedYears | src/screens/PatientDetailScreen.tsx:33-40 | The age is the whole years lived: the last anniversary is on or before today, the next one after |
| PatientDetail.CompletedYearsUnique | src/screens/PatientDetailScreen.tsx:33-40 | Only one year count has its anniversary behind and the next ahead |
| PatientDetail.AgeIsTheCompletedYears | src/screens/PatientDetailScreen.tsx:33-40 | Any count with the last anniversary behind and the next ahead is the computed age |
| PatientDetail.EditPatientWrite | src/screens/PatientDetailScreen.tsx:423-436 | No write while a trimmed name is empty; otherwise the UPDATE of that patient id with trimmed names and blank address or phone as NULL |
| PatientDetail.PatientSetClause | src/screens/PatientDetailScreen.tsx:429-430 | The edit's SET clause changes its six columns and no other |
| PatientDetail.EditPatientSaved | src/screens/PatientDetailScreen.tsx:429-430 | A saved edit rewrites only that patient's row, with the trimmed values, keeping its key and timestamps |
| PatientDetail.PatientRowAccepted | src/db/schema.ts:4-14 | A patient row with both names meets every constraint |
| PatientDetail.EditPatientAccepted | src/screens/PatientDetailScreen.tsx:424-430 | With both names filled, an edit is never refused on a file with the patients table |
| PatientDetail.DonneeWrite | src/screens/PatientDetailScreen.tsx:560-585 | No write without a truthy type id or with a blank value; otherwise the UPDATE by `donnee_id` in edit mode or the INSERT for the form's patient |
| PatientDetail.DonneeSetClause | src/screens/PatientDetailScreen.tsx:573-574 | The datum SET clause changes its three columns and no other |
| PatientDetail.DonneeEditSaved | src/screens/PatientDetailScreen.tsx:573-574 | A saved datum edit rewrites only that datum in place, keeping its key and its patient |
| PatientDetail.DonneeInsertComplete | src/screens/PatientDetailScreen.tsx:578-579 | The datum INSERT fills every NOT NULL column |
| PatientDetail.DonneeInsertParents | src/screens/PatientDetailScreen.tsx:578-579 | The datum INSERT references existing rows when the patient and type exist |
| PatientDetail.DonneeCreated | src/screens/PatientDetailScreen.tsx:578-579 | A new datum is one row appended under the next key for the form's patient, with the type, trimmed value and date |
| PatientDetail.DonneeCreateAccepted | src/screens/PatientDetailScreen.tsx:578-579 | A new datum for an existing patient and type is always accepted |
| PatientDetail.ConsultationWrite | src/screens/PatientDetailScreen.tsx:677-703 | No write without a truthy type id or with a blank diagnosis; otherwise the UPDATE or INSERT naming `diagnostic` and `traitement` (blank treatment as NULL) |
| PatientDetail.ConsultationSetUnknown | src/screens/PatientDetailScreen.tsx:691-692 | The consultation UPDATE names `diagnostic`, an undeclared column, first |
| PatientDetail.ConsultationInsertUnknown | src/screens/PatientDetailScreen.tsx:696-697 | The consultation INSERT names `diagnostic`, an undeclared column, first |
| PatientDetail.ConsultationRejected | src/screens/PatientDetailScreen.tsx:691-697 | Under the schema as written, the consultation form can never save |
| PatientDetail.ConsultationSubmitFails | src/screens/PatientDetailScreen.tsx:689-702 | A submitted consultation always fails at the layer; the file holds only what initialisation put there |
| PatientDetail.ExamenWrite | src/screens/PatientDetailScreen.tsx:813-834 | No write without a truthy type id; otherwise the UPDATE or INSERT with blank subject, result and notes as NULL |
| PatientDetail.ExamenSetClause | src/screens/PatientDetailScreen.tsx:822-823 | The examination SET clause changes its five columns and no other |
| PatientDetail.ExamenEditSaved | src/screens/PatientDetailScreen.tsx:822-823 | A saved examination edit rewrites only that examination in place, keeping its key and patient |
| PatientDetail.ExamenInsertComplete | src/screens/PatientDetailScreen.tsx:827-828 | The examination INSERT fills both NOT NULL columns |
| PatientDetail.ExamenInsertParents | src/screens/PatientDetailScreen.tsx:827-828 | The examination INSERT references existing rows when the patient and type exist |
| PatientDetail.ExamenCreated | src/screens/PatientDetailScreen.tsx:827-828 | A new examination is one row appended under the next key, with blank texts as NULL |
| PatientDetail.ExamenAppended | src/screens/PatientDetailScreen.tsx:827-828 | The accepted INSERT of an examination appends, under the next key, a row holding the patient and the form's values |
| PatientDetail.ExamenCreateAccepted | src/screens/PatientDetailScreen.tsx:827-828 | A new examination for an existing patient and type is always accepted |
| PatientDetail.ItemDeleted | src/screens/PatientDetailScreen.tsx:65-74 | `deleteItem`'s DELETE succeeds, removes exactly the entries holding that id, and changes no other table |
| PatientDetail.Loaded | src/screens/PatientDetailScreen.tsx:49-63 | `loadData`'s three queries: the layer after them, and the lists when all answered |
| PatientDetail.QueriedForPatient | src/screens/PatientDetailScreen.tsx:52-54 | A fact query answers exactly the rows of that table with the patient's id |
| PatientDetail.LoadedLists | src/screens/PatientDetailScreen.tsx:51-59 | Each loaded list is exactly the patient's rows of its table, and the counters are their lengths |
| PatientDetail.LoadedOnReady | src/screens/PatientDetailScreen.tsx:49-59 | On a ready layer with the fact tables, loading always succeeds |
| PatientDetail.LoadedAfterFailure | src/screens/PatientDetailScreen.tsx:60-62 | While the cached init has failed, loading rethrows and the lists stay as they were |
| PatientDetail.EditedFor | src/screens/PatientDetailScreen.tsx:126-265 | A form receives the edited row only when it is of that form's kind |
| PatientDetail.RanThenLoaded | src/screens/PatientDetailScreen.tsx:73-74 | A statement, then a reload exactly when it passed |
| PatientDetail.CreatedDonneeListed | src/screens/PatientDetailScreen.tsx:578-582 | A new datum appears in the reloaded list with the picked type, the trimmed value and the date |
| PatientDetail.PatientDetailScreen.constructor | src/screens/PatientDetailScreen.tsx:18-25 | The screen as first rendered: empty lists, data tab, no form open |
| PatientDetail.PatientDetailScreen.LoadData | src/screens/PatientDetailScreen.tsx:49-63 | The lists and counters are `Loaded`'s, or unchanged when a query throws |
| PatientDetail.PatientDetailScreen.LoadLists | src/screens/PatientDetailScreen.tsx:51-55 | The layer after the three queries for the patient, and the three lists exactly when all three answered |
| PatientDetail.PatientDetailScreen.ShowLoaded | src/screens/PatientDetailScreen.tsx:56-59 | Loaded lists replace the shown ones with counters equal to their lengths; nothing changes otherwise |
| PatientDetail.PatientDetailScreen.SelectTab | src/screens/PatientDetailScreen.tsx:347-363 | A tab switch changes only the active tab |
| PatientDetail.PatientDetailScreen.StartEdit | src/screens/PatientDetailScreen.tsx:126-265 | A pencil opens the form on that entry |
| PatientDetail.PatientDetailScreen.CancelForm | src/screens/PatientDetailScreen.tsx:156-163 | Cancel closes the form and forgets the edited entry |
| PatientDetail.PatientDetailScreen.DeleteItem | src/screens/PatientDetailScreen.tsx:65-80 | Once confirmed, the DELETE by key and then a reload when it passed; cancelled, nothing changes |
| PatientDetail.PatientDetailScreen.Submit | src/screens/PatientDetailScreen.tsx:89-96 | No statement: nothing changes; a passed statement closes the form and reloads; a failed one keeps the form open |
| PatientDetail.PatientDetailScreen.SubmitDonnee | src/screens/PatientDetailScreen.tsx:560-585 | Submits `DonneeWrite` for the entry being edited, if any |
| PatientDetail.PatientDetailScreen.SubmitConsultation | src/screens/PatientDetailScreen.tsx:677-703 | Submits `ConsultationWrite` |
| PatientDetail.PatientDetailScreen.SubmitExamen | src/screens/PatientDetailScreen.tsx:813-834 | Submits `ExamenWrite` |
| PatientDetail.PatientDetailScreen.SavePatient | src/screens/PatientDetailScreen.tsx:375-380 | The edit's statement; on success the form closes, and the lists are not reloaded |
| PatientDetail.PatientDetailScreen.SubmitPatientEdit | src/screens/PatientDetailScreen.tsx:423-436 | Submits `EditPatientWrite` for the patient |
| PatientsList.Filtered | src/screens/PatientsListScreen.tsx:44-47 | A patient is kept exactly when the lowercased "nom prenom" holds the lowercased search, or the phone holds it as typed; the result is an ordered subsequence |
| PatientsList.EmptySearchKeepsAll | src/screens/PatientsListScreen.tsx:44-47 | An empty search keeps every patient |
| PatientsList.MissingPhoneNameOnly | src/screens/PatientsListScreen.tsx:46 | Without a phone, only the name test decides |
| PatientsList.PhoneFound | src/screens/PatientsListScreen.tsx:46 | A phone is found by its digits as stored, without case folding |
| PatientsList.NameFound | src/screens/PatientsListScreen.tsx:45 | A patient is found by their lowercased full name |
| PatientsList.PatientFormWrite | src/screens/PatientsListScreen.tsx:162-177 | No insert while a trimmed name is empty; otherwise an INSERT of trimmed names, the sex or NULL, and blank address or phone as NULL |
| PatientsList.PatientInsertColumns | src/screens/PatientsListScreen.tsx:169-172 | The INSERT names only non-key columns of patients |
| PatientsList.PatientInsertComplete | src/screens/PatientsListScreen.tsx:169-172 | It fills both NOT NULL columns |
| PatientsList.PatientAdded | src/screens/PatientsListScreen.tsx:169-172 | A new patient is one row appended under the next key with the normalised values |
| PatientsList.PatientAddAccepted | src/screens/PatientsListScreen.tsx:163-172 | With both names filled, adding is never refused on a file with the table |
| PatientsList.DeletePatientRemoves | src/screens/PatientsListScreen.tsx:60 | Deleting a patient succeeds and removes exactly that patient and their facts; other tables are unchanged |
| PatientsList.PatientsListScreen.constructor | src/screens/PatientsListScreen.tsx:22-25 | Empty list, empty search, add form closed |
| PatientsList.PatientsListScreen.LoadPatients | src/screens/PatientsListScreen.tsx:35-42 | The list is the patients table's rows, or unchanged when the query throws |
| PatientsList.PatientsListScreen.SetSearchText | src/screens/PatientsListScreen.tsx:103 | Typing changes only the search text |
| PatientsList.PatientsListScreen.DeletePatient | src/screens/PatientsListScreen.tsx:49-68 | Once confirmed, the DELETE by key and a reload; cancelled, nothing changes |
| PatientsList.PatientsListScreen.SubmitPatient | src/screens/PatientsListScreen.tsx:114-177 | A passed INSERT closes the form and reloads; a refused form changes nothing |
| Attachments.TypeLabel | src/components/AttachmentManager.tsx:23-30 | The three kinds map to fixed labels; any other kind to itself |
| Attachments.TypeIcon | src/components/AttachmentManager.tsx:32-39 | The three kinds map to fixed icons; any other kind to the paper clip |
| Attachments.KindsTellApart | src/components/AttachmentManager.tsx:23-39 | Distinct kinds get distinct labels and icons, none the fallback clip |
| Attachments.ImageIgnoresCase | src/components/AttachmentManager.tsx:110 | A URL is an image exactly when its lowercased form is |
| Attachments.ImageBySuffix | src/components/AttachmentManager.tsx:110 | A name ending in `.` plus jpg, jpeg, png, gif, bmp or webp is an image |
| Attachments.PdfIsNotImage | src/components/AttachmentManager.tsx:110 | A `.pdf` name is not an image |
| Attachments.MimeKind | src/components/AttachmentManager.tsx:209 | Image exactly when the MIME type starts with `image/`; a missing type gives document |
| Attachments.SuggestedName | src/components/AttachmentManager.tsx:210-212 | The file's name, or "Document sélectionné" when it is empty |
| Attachments.Defaulted | src/components/AttachmentManager.tsx:191-212 | A blank description takes the suggestion; typed text is kept |
| Attachments.AttachmentForm.constructor | src/components/AttachmentManager.tsx:168-170 | An empty form with no file |
| Attachments.AttachmentForm.SetDescription | src/components/AttachmentManager.tsx:281 | Typing changes only the description |
| Attachments.AttachmentForm.TakePhoto | src/components/AttachmentManager.tsx:173-198 | With permission and a photo, it becomes the image file and a blank description gets the dated default; otherwise nothing changes |
| Attachments.AttachmentForm.PickDocument | src/components/AttachmentManager.tsx:200-217 | A picked file and its MIME kind are recorded and a blank description gets its name; a cancelled pick changes nothing |
| Attachments.AttachmentWrite | src/components/AttachmentManager.tsx:219-234 | No insert while the trimmed description or URL is empty; otherwise an INSERT of the target with the trimmed values |
| Attachments.AttachmentInsertColumns | src/components/AttachmentManager.tsx:226-229 | The INSERT names four distinct non-key columns of `pieces_jointes` |
| Attachments.AttachmentInsertComplete | src/components/AttachmentManager.tsx:226-229 | It fills the three NOT NULL columns |
| Attachments.AttachmentChecks | src/db/schema.ts:68 | A row with one of the three kinds passes the CHECK |
| Attachments.RowAdmitted | src/db/schema.ts:66-73 | A complete row with one of the three kinds breaks no constraint |
| Attachments.KindRejected | src/db/schema.ts:68 | A complete row with another kind breaks the CHECK, and nothing before it |
| Attachments.AttachmentVerdict | src/db/schema.ts:66-73 | An attachment INSERT succeeds exactly when its kind is one of the three |
| Attachments.AttachmentAdded | src/components/AttachmentManager.tsx:226-229 | A saved attachment is one row appended under the next key with the target and the trimmed values |
| Attachments.AttachmentAccepted | src/components/AttachmentManager.tsx:219-229 | A filled form for one of the three kinds is always saved |
| Attachments.OtherKindRejected | src/db/schema.ts:68 | Any other kind is refused by the CHECK |
| Attachments.ForTargetSelects | src/components/AttachmentManager.tsx:43-46 | The query's WHERE selects exactly the rows with this kind and id |
| Attachments.ListedAttachments | src/components/AttachmentManager.tsx:41-51 | The loaded list is exactly the table's attachments of this target |
| Attachments.AttachmentDeleted | src/components/AttachmentManager.tsx:68 | Deleting an attachment removes exactly the rows with that key and nothing else |
| Attachments.AttachmentManager.constructor | src/components/AttachmentManager.tsx:19-21 | No attachment shown, add form closed, for the given target, whose query selects that kind and id |
| Attachments.AttachmentManager.LoadAttachments | src/components/AttachmentManager.tsx:41-51 | The list is the target's attachments, or unchanged when the query throws |
| Attachments.AttachmentManager.OpenForm | src/components/AttachmentManager.tsx:89 | The add form opens |
| Attachments.AttachmentManager.CancelForm | src/components/AttachmentManager.tsx:102 | The add form closes |
| Attachments.AttachmentManager.DeleteAttachment | src/components/AttachmentManager.tsx:57-77 | Once confirmed, the DELETE by key and a reload; cancelled, nothing changes |
| Attachments.AttachmentManager.Submit | src/components/AttachmentManager.tsx:219-234 | A passed INSERT closes the form and reloads; a refused form changes nothing |
| Parametres.TargetMapsAgree | src/screens/ParametresScreen.tsx:284-288 | The section map of `deleteType` and of `TypeForm` agree on every section |
| Parametres.IdFieldAgrees | src/screens/ParametresScreen.tsx:84-91 | `getIdField` names the map's id column for each type section; the theme section has none |
| Parametres.TypeTable | src/screens/ParametresScreen.tsx:50-54 | Each type section maps to its type table; the theme section to none |
| Parametres.TargetsAreSchemaNames | src/screens/ParametresScreen.tsx:50-54 | The map's table and id column names are those of the schema |
| Parametres.TypeTableShape | src/db/schema.ts:16-52 | The three type tables share one shape: key, required name, optional description |
| Parametres.CurrentTypes | src/screens/ParametresScreen.tsx:75-82 | The list of the active section, and none for the theme section |
| Parametres.TypeWrite | src/screens/ParametresScreen.tsx:278-308 | No write while the trimmed name is empty or outside the type sections; otherwise the UPDATE by the edited id or the INSERT, with blank description as NULL |
| Parametres.TypeSetClause | src/screens/ParametresScreen.tsx:293-296 | The SET clause changes the name and the description and nothing else |
| Parametres.TypeEditSaved | src/screens/ParametresScreen.tsx:293-296 | A saved edit rewrites only the type holding the edited id, in place |
| Parametres.TypeRowAccepted | src/db/schema.ts:16-52 | A type row with a name meets every constraint |
| Parametres.TypeInsertComplete | src/screens/ParametresScreen.tsx:298-302 | The INSERT fills the one NOT NULL column |
| Parametres.TypeCreated | src/screens/ParametresScreen.tsx:298-302 | A new type is one row appended under the next id with the trimmed name and the description or NULL |
| Parametres.TypeSaveAccepted | src/screens/ParametresScreen.tsx:279-302 | With a name given, saving a type, new or edited, is never refused |
| Parametres.DeleteTypeCommand | src/screens/ParametresScreen.tsx:63-64 | The DELETE of the section's table by its id column; nothing for the theme section |
| Parametres.TypeRowsDeleted | src/db/schema.ts:29-63 | Deleting a type removes it and exactly the facts of that type; other tables are unchanged |
| Parametres.TypeDeleted | src/screens/ParametresScreen.tsx:49-73 | At the layer a type delete succeeds, never refused as in use, and cascades to its facts |
| Parametres.TypesLoaded | src/screens/ParametresScreen.tsx:34-47 | `loadTypes`'s three queries: the layer after them, and the lists when all answered |
| Parametres.LoadedTypes | src/screens/ParametresScreen.tsx:34-47 | The loaded lists are exactly the rows of the three type tables |
| Parametres.ParametresScreen.constructor | src/screens/ParametresScreen.tsx:21-26 | The theme section, no form, nothing edited, empty lists |
| Parametres.ParametresScreen.LoadTypes | src/screens/ParametresScreen.tsx:34-47 | The lists are `TypesLoaded`'s, or unchanged when a query throws |
| Parametres.ParametresScreen.SelectSection | src/screens/ParametresScreen.tsx:208-248 | A section switch closes the form and clears the edited type |
| Parametres.ParametresScreen.OpenForm | src/screens/ParametresScreen.tsx:162 | The add button opens an empty form |
| Parametres.ParametresScreen.StartEdit | src/screens/ParametresScreen.tsx:137-140 | The edit button opens the form on that type |
| Parametres.ParametresScreen.CancelForm | src/screens/ParametresScreen.tsx:177-180 | Cancel closes the form and clears the edited type |
| Parametres.ParametresScreen.DeleteType | src/screens/ParametresScreen.tsx:49-73 | Once confirmed, the section's DELETE and a reload; cancelled, nothing changes |
| Parametres.ParametresScreen.SubmitType | src/screens/ParametresScreen.tsx:172-308 | A passed statement closes the form and reloads; a refused form changes nothing |
| TypePicker.PlaceholderOf | src/components/TypePicker.tsx:18 | The placeholder defaults to "Sélectionner..." only when absent |
| TypePicker.IconOf | src/components/TypePicker.tsx:19 | The icon defaults to 📋 only when absent |
| TypePicker.SelectedItem | src/components/TypePicker.tsx:23 | The first item whose id equals the value; none for a null value or an absent id |
| TypePicker.DescriptionLine | src/components/TypePicker.tsx:40-44 | The selected item's description, only when it is present and non-empty |
| TypePicker.PlaceholderWhenUnmatched | src/components/TypePicker.tsx:23-24 | With no value or an unmatched one, the placeholder is shown and no description |
| TypePicker.FirstMatchShown | src/components/TypePicker.tsx:23-24 | A value held by item `k` and no earlier item shows item `k`'s name |
| TypePicker.Picker.constructor | src/components/TypePicker.tsx:21 | The modal starts closed and nothing is reported |
| TypePicker.Picker.Shown | src/components/TypePicker.tsx:24 | The selected item's name, or the placeholder |
| TypePicker.Picker.Open | src/components/TypePicker.tsx:32 | Pressing the selector opens the modal |
| TypePicker.Picker.Close | src/components/TypePicker.tsx:54-65 | The overlay, close and back buttons close the modal and report nothing |
| TypePicker.Picker.Choose | src/components/TypePicker.tsx:80-83 | Choosing a row reports exactly its id and closes the modal |
| TypePicker.ChosenIsShown | src/components/TypePicker.tsx:23-83 | Once the parent adopts the reported id, the chosen item is shown when no earlier row shares its id |
| Accueil.CountTextRead | src/screens/AccueilScreen.tsx:29 | A count delivered as decimal text reads as that count |
| Accueil.SameAsSeedReading | src/screens/AccueilScreen.tsx:27-31 | The dashboard's `safeParseInt` agrees with the seed's on every value |
| Accueil.StatsLoaded | src/screens/AccueilScreen.tsx:17-44 | The four counts when every query answered, none when one threw |
| Accueil.CountQueried | src/screens/AccueilScreen.tsx:21-24 | A count query initialises the layer and, when it answers, reads the table's size |
| Accueil.LoadedCounts | src/screens/AccueilScreen.tsx:33-127 | Loaded counts are the four tables' row counts, and the donut total is their sum |
| Accueil.FailedLayerKeepsCounts | src/screens/AccueilScreen.tsx:39-40 | While the cached init has failed, nothing loads and the layer is unchanged |
| Accueil.AccueilScreen.constructor | src/screens/AccueilScreen.tsx:10-11 | Four zero counts and not refreshing |
| Accueil.AccueilScreen.LoadData | src/screens/AccueilScreen.tsx:17-44 | `refreshing` is set true then false whether or not a query threw; the counts change only when all answered |
| Accueil.AccueilScreen.LoadCounts | src/screens/AccueilScreen.tsx:20-38 | The layer after the four count queries, and the counts exactly when all four answered |
| Theme.SavedMode | src/contexts/ThemeContext.tsx:71-80 | A stored value is adopted exactly when it is 'light' or 'dark' |
| Theme.StoredModeReadBack | src/contexts/ThemeContext.tsx:74-88 | A mode written to storage reads back as the same mode |
| Theme.Toggled | src/contexts/ThemeContext.tsx:95-98 | Light becomes dark and dark becomes light |
| Theme.ToggleTwice | src/contexts/ThemeContext.tsx:95-98 | Toggling twice restores the mode |
| Theme.ColorsOf | src/contexts/ThemeContext.tsx:21-100 | The light palette exactly when the mode is light, the dark one exactly when dark |
| Theme.UseTheme | src/contexts/ThemeContext.tsx:109-115 | The provider's value inside a provider; outside one, the error "useTheme must be used within a ThemeProvider" |
| Theme.ThemeProvider.constructor | src/contexts/ThemeContext.tsx:65 | The first mode is light |
| Theme.ThemeProvider.Value | src/contexts/ThemeContext.tsx:100-106 | The published value carries the mode and its palette |
| Theme.ThemeProvider.LoadTheme | src/contexts/ThemeContext.tsx:71-80 | A valid stored mode is adopted; anything else, or a failed read, leaves the mode as it was |
| Theme.ThemeProvider.SetTheme | src/contexts/ThemeContext.tsx:90-93 | The mode changes and the same mode is stored |
| Theme.ThemeProvider.ToggleTheme | src/contexts/ThemeContext.tsx:95-98 | `setTheme` of the other mode |
| Theme.RestartKeepsMode | src/contexts/ThemeContext.tsx:65-98 | After a mode is set and stored, a fresh provider comes back in that mode once `loadTheme` has run |

## Left out

- The SQLite engine. SQL text is not parsed: statements are structured values (`Store.Command`,
  `Store.Query`), and only the creation script is real text, read back statement by statement.
- `JOIN` and `ORDER BY`. The joined `nom_type` of the fact lists and of the type picker's
  items is not modelled, nor the inner join's row filter: a fact whose type row is missing is
  listed by the model and hidden by the app. With enforcement on and cascading deletes no such
  fact exists. List order is table order, not the `ORDER BY … DESC` of the queries.
- SQLite type affinity is not modelled. An INSERT that gives the key a value, and an UPDATE whose
  SET names the key, are refused with `KeyAssigned`; SQLite accepts both. The app issues neither.
- JavaScript numbers are modelled as integers (`JsValue.Num(int)`), and strings as sequences of
  Unicode scalar values rather than UTF-16 code units. No operation of the app depends on
  fractions or on surrogate pairs.
- Dates. `new Date`, `toISOString` and `toLocaleDateString` are not modelled.
  - `calculateAge` takes the birth day and today as (year, month, day) triples.
  - The store's date defaults come from the `Env` clock.
  - The date text a form stores is an opaque string.
- `Promise.all` runs its queries one after the other, in source order. Promise interleaving is
  modelled only through the `DbState` events; there is no real concurrency.
- DataAccess.DataLayer.InitDatabase: an engine or I/O failure of a creation-script statement (a
  locked or full file, say) is not modelled. Every statement of the script is accepted, so in the
  model only the open can make initialisation fail, although the source would rethrow any failure
  of the script as well.
- JsText.ToLower: folds only ASCII, the Latin-1 capitals, Œ and Ÿ. Capitals of other scripts
  (other Latin Extended letters, Greek, Cyrillic, and İ, whose lower case is two code units) are
  compared unfolded, so a search typed in those scripts can drop a patient that the app keeps.
- Device I/O is a parameter:
  - opening the file, the clock;
  - the camera and its permission, the document picker;
  - Alert confirmations;
  - the theme's storage reads and writes.
  The `console` logging and the error alerts have no modelled effect, beyond leaving state as it
  was.
- `src/components/Charts.tsx` is not part of this model; its heights and percentages are
  floating point. Only the donut `total` it receives is modelled.
- Type deletes cascade. The foreign keys of the fact tables say `ON DELETE CASCADE`, so deleting
  a type in use removes its facts, and the model follows that code. A restricting delete, refused
  while the type is in use, is not modelled.
- Consultations follow the schema as written: the column is `notes`, with no `diagnostic` or
  `traitement`. The consultation form's writes therefore always fail (`ConsultationRejected`). The
  seed's example consultations fail too, so the example examinations after them are never stored
  (`ConsultationsRejected`).
- The reload that `navigation.setParams` triggers after a patient edit is not modelled; the
  patient header is not re-read. The forms' initial field values from the edited row are not
  modelled either; the submitted fields are parameters.
- The patient's phone is compared as text only. A numeric phone value is not modelled.
- Not part of this model:
  - `src/screens/ParametresScreenOld.tsx`, which nothing routes to;
  - the detail screens `DonneeDetailScreen`, `ConsultationDetailScreen` and `ExamenDetailScreen`;
  - `src/navigation/index.tsx`, `App.tsx`;
  - the build, icon and reset scripts;
  - every style block.
- TypePicker's rendering, and the highlight of the current row (`TypePicker.tsx:78`), are left
  out. Only the values shown are modelled.
- Theme.RestartKeepsMode: a scenario method of the model, combining the provider's own methods.
  It stands for no single source function.
- DbSeed.SeedTwice: both seed runs use the same clock. With different clocks the rows would be
  the same but for their date defaults.
