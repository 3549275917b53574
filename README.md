# imobiliaria-backend in Dafny

A model of the core of the imobiliaria backend, a REST service for a real-estate agency. The service keeps users (`usuarios`), categories (`categorias`), cities (`cidades`), properties (`imoveis`), contracts (`contratos`) and property photos (`fotos`) in MySQL.

Each of the six resources is one slice made of a service and a controller:
- The service (`src/services/*.service.js`) is a class holding a table `rows: map<int, R>` and its auto-increment counter. `list` is a pure selection, filter and order over the rows. `get`, `create`, `update` and `delete` are methods whose `ensures` give the new table.
- A write takes the database's answer as a parameter (`fault: Option<Failure>`). A failing insert, update or delete can therefore be modelled.
- The controller (`src/controllers/*.controller.js`) parses the request, validates the payload with the same rules and messages as the source, checks foreign keys where the source does, and calls the service. It answers a `Response` with the status and body the client receives. A storage failure is passed through `mapMysqlError`.

The cross-cutting parts:
- `MysqlErrors` models `src/utils/mysql.js`: the MySQL error-code table and the `Duplicate entry '…' for key '…'` message parser.
- `JsValues` and `Parsing` give JavaScript's `Number(…)`, truthiness, `trim` and the id, number and date rules.
- `Tables` and `Ordering` hold the SELECT semantics: ascending ids, filters, `ORDER BY … ASC` as a stable insertion sort.
- `Paths` and `Uploads` model POSIX `path.join` for absolute paths, the upload directory layout and the best-effort file deletion. The disk is its set of file paths.
- `FotosRoutes` models the multer configuration: destination, generated file name, MIME filter and the upload error answer.
- `FotosController` models the photo batch. It inserts one row per file, checks the per-property quota of 10, and on a failed insert removes the stored files and deletes the rows already created.
- `Pool` models `src/db/pool.js`: the connection-error formatter and the start-up retry loop. The retry loop works over a pool object that counts connections in use.

Where the repository's design description and the code disagree, the model follows the code:
- An update with a `tipo` or `status` that is present but not allowed is rejected with 400 by the property and contract controllers, even when it is empty. The services' "keep the stored value" fallback for those fields is never reached from HTTP. The design description says updates fall back silently.
- For users the fallback is reached. `updateUsuarioHandler` rejects only a truthy `tipo_usuario` that is not allowed (src/controllers/usuarios.controller.js:89). An empty string is passed on (line 100), and `updateUsuario` then keeps the stored type (src/services/usuarios.service.js:99-102). `UsuariosController.UpdatedType` states this.
- The batch rollback leaves the table exactly as it was only when every compensating delete succeeds. A failed delete leaves its row behind. The design description calls the rollback all-or-nothing.
- multer's per-request file limit is the fixed `maxFilesPerProperty`, not the property's remaining quota. The quota itself is checked afterwards, in the controller.
- A photo's file is removed when its url starts with `/uploads/`. The url does not have to resolve inside the upload root. `FotosController.DeleteFotoHandler` models this as written; see Findings.
- An upload is stored in the directory named by the route's raw `imovelId` text, but its url is built from the parsed id. The two differ for text such as `05`; see Findings.

## Model

| member | source | states |
|---|---|---|
| MysqlErrors.MapMysqlError | src/utils/mysql.js:19-52 | no mapping without an error or a code; every mapping is 400 or 409; 409 exactly for ER_DUP_ENTRY and the two ER_ROW_IS_REFERENCED codes; a duplicate is always mapped; a tabled code gets its table entry; an unknown code maps to (400, sqlMessage verbatim) when sqlMessage is non-empty and to nothing otherwise |
| MysqlErrors.DuplicateNamesValueAndKey | src/utils/mysql.js:24-31 | a duplicate whose sqlMessage is the driver's `Duplicate entry '<v>' for key '<k>'` text maps to 409 with a message naming v and k |
| MysqlErrors.DuplicateWithoutShape | src/utils/mysql.js:33-36 | a duplicate whose sqlMessage contains no occurrence of the pattern maps to 409 with the generic duplicate message |
| MysqlErrors.DupEntryMatch | src/utils/mysql.js:1 | a match of the case-insensitive duplicate-entry pattern yields groups that occur in that shape somewhere in the text |
| MysqlErrors.DupEntryMatchComplete | src/utils/mysql.js:1 | the pattern matches exactly when its shape occurs somewhere in the text (both directions) |
| MysqlErrors.DupEntryRoundTrip | src/utils/mysql.js:1 | matching the driver's text built from a value and a key, neither holding quotes or line breaks, gives back exactly that value and key |
| MysqlErrors.LineEnd | src/utils/mysql.js:1 | the first line terminator at or after a position, which `.` in the pattern cannot cross |
| MysqlErrors.CloseQuote | src/utils/mysql.js:1 | the backtracking `(.+)'` finds the last quote in range, and none exists in range when it fails |
| MysqlErrors.Group2 | src/utils/mysql.js:1 | the second group ends at a quote with no line terminator inside it |
| MysqlErrors.MiddleFrom | src/utils/mysql.js:1 | the backtracking first group ends at a position from which the rest of the pattern completes |
| MysqlErrors.MatchFromSound | src/utils/mysql.js:1 | a match found scanning from a position is an occurrence of the pattern's shape |
| MysqlErrors.MatchFromFinds | src/utils/mysql.js:1 | if the pattern can start at some later position, scanning finds a match |
| MysqlErrors.DupEntryTextCompletes | src/utils/mysql.js:1 | in the driver's duplicate text the first group can only end where the value ends |
| Parsing.ParseId | src/controllers/usuarios.controller.js:11-14 | `parseId` (the same in every controller, and `parsePositiveInt` in the contracts controller) yields a value exactly when `Number(value)` is a finite integer greater than zero, and then that integer |
| Parsing.ParseIdOfDecimal | src/controllers/fotos.controller.js:11-14 | the decimal rendering of a positive id parses back to that id |
| Parsing.ParseNumber | src/controllers/imoveis.controller.js:13-19 | `parseNumber` is undefined for undefined, null and the empty string; otherwise it is defined exactly when `Number(value)` is finite, and then equals it |
| Parsing.ParseIdImpliesParseNumber | src/controllers/imoveis.controller.js:13-24 | every id `parseId` accepts is accepted by `parseNumber` with the same value |
| Parsing.DateShapePieces | src/controllers/contratos.controller.js:26 | the date pattern is exactly four digits, a dash, two digits, a dash, two digits |
| Parsing.NoCalendarCheck | src/controllers/contratos.controller.js:26 | `2024-99-99` passes the date check and `2024-1-01` does not: there is no calendar check |
| Parsing.EstadoValidoUpper | src/controllers/cidades.controller.js:10 | upper-casing never changes whether a state code is two ASCII letters |
| Http.ErrorResponse | src/controllers/usuarios.controller.js:28-34 | a store failure is answered with the mapped status (400 or 409) and message; an unmapped failure goes to the application's fallback, 500 |
| JsValues.TrimSpec | src/services/categorias.service.js:33 | `trim` returns a slice of its input that neither starts nor ends with whitespace, and only whitespace was cut off |
| JsValues.TrimIdempotent | src/controllers/categorias.controller.js:51-56 | trimming twice is trimming once, so a name trimmed by a handler is stored unchanged by a service that trims it again |
| JsValues.ToUpper | src/services/cidades.service.js:8 | `toUpperCase` maps each ASCII letter to upper case and keeps the length |
| JsValues.ToLower | src/controllers/usuarios.controller.js:18-20 | `toLowerCase` maps each ASCII letter to lower case and keeps the length |
| JsValues.ToUpperIdempotent | src/services/cidades.service.js:8 | upper-casing twice is upper-casing once |
| JsValues.ToLowerIdempotent | src/controllers/imoveis.controller.js:30-31 | lower-casing twice is lower-casing once |
| JsValues.IndexOf | src/controllers/fotos.controller.js:45-57 | the first occurrence of a character, or the length when there is none |
| JsValues.TailLength | src/controllers/fotos.controller.js:28-31 | what `split(c).pop()` keeps: a suffix without c, preceded by c unless it is the whole string |
| JsValues.JoinEmpty | src/db/pool.js:41 | joining non-empty parts gives the empty string exactly when there are no parts |
| JsValues.NatToDecimalDigits | src/utils/uploads.js:5-9 | `String(id)` of a natural number is a non-empty run of digits whose value is that number |
| JsValues.NatToDecimalRoundTrip | src/utils/uploads.js:5-9 | `Number(String(n))` is n |
| Tables.KeysBelow | src/services/usuarios.service.js:16-30 | the table's keys below the auto-increment counter, ascending, each exactly once |
| Tables.RowsAt | src/services/usuarios.service.js:16-30 | the rows stored under the given keys, in that order |
| Tables.Where | src/services/usuarios.service.js:14 | a `WHERE` keeps exactly the rows satisfying the condition and adds none |
| Tables.SortBy | src/services/usuarios.service.js:27 | an `ORDER BY` returns a permutation of its input |
| Tables.SortBySorted | src/services/usuarios.service.js:27 | the result of an `ORDER BY` with a total preorder is ordered by it |
| Tables.Select | src/services/usuarios.service.js:16-30 | a query returns only stored rows satisfying the condition and every stored row that does; when different keys hold different rows, none appears twice |
| Tables.SelectKeysDistinct | src/services/usuarios.service.js:16-30 | in a table whose rows carry their own key, a query never lists the same key twice |
| Tables.DistinctOnce | src/services/usuarios.service.js:16-30 | a sequence without repeats holds each row once (multiset count at most 1) |
| Tables.OnceDistinct | src/services/usuarios.service.js:16-30 | a sequence holding each row at most once has no two equal positions |
| Tables.SortWhereDistinct | src/services/usuarios.service.js:14-27 | filtering then sorting a sequence without repeats yields one without repeats |
| Tables.SortWhereMembers | src/services/usuarios.service.js:14-27 | filtering then sorting keeps exactly the rows the filter admits |
| Tables.SelectSorted | src/services/usuarios.service.js:16-30 | a query's result is ordered by its `ORDER BY` |
| Tables.AllHoldPush | src/services/usuarios.service.js:9-14 | pushing one more condition narrows the `WHERE` by exactly that condition |
| Tables.ApplyPush | src/services/usuarios.service.js:81-116 | pushing one more `SET` assignment applies it after the others |
| Ordering.TextLeTotal | src/services/cidades.service.js:22 | `ORDER BY nome` compares any two names |
| Ordering.TextLeTransitive | src/services/cidades.service.js:22 | the name order is transitive |
| Ordering.TextLeAntisymmetric | src/services/cidades.service.js:22 | only equal names come no later than each other |
| Ordering.NullsFirstTotal | src/services/imoveis.service.js:72 | an order on nullable text with nulls first compares any two values |
| Ordering.NullsFirstTransitive | src/services/imoveis.service.js:72 | that order is transitive |
| Usuarios.Inserted | src/services/usuarios.service.js:54-62 | the inserted row has the new id and timestamp, an allowed type (the requested one when allowed, otherwise `cliente`), and a null phone when none was given |
| Usuarios.NewerTotal | src/services/usuarios.service.js:27 | `ORDER BY criado_em DESC` is a total preorder |
| Usuarios.PatchedUntouched | src/services/usuarios.service.js:107-109 | a payload without any of the four column keys changes nothing |
| Usuarios.PatchedIgnoresOtherKeys | src/services/usuarios.service.js:84-105 | keys other than nome, email, telefone and tipo_usuario make no difference to an update |
| Usuarios.PatchedKeepsType | src/services/usuarios.service.js:99-105 | an update keeps id and timestamp, the stored type stays allowed, and a type that is not allowed leaves the stored one |
| Usuarios.SetList | src/services/usuarios.service.js:81-109 | the `SET` list built key by key yields the patched row and is empty exactly when no column key is present |
| Usuarios.UsuarioTable.List | src/services/usuarios.service.js:5-33 | exactly the stored rows matching the truthy type filter, no id twice, newest first |
| Usuarios.UsuarioTable.GetById | src/services/usuarios.service.js:35-52 | the row under the id, or null exactly when there is none |
| Usuarios.UsuarioTable.Create | src/services/usuarios.service.js:54-73 | one new row under the next id, returned as stored; a failing insert throws and changes nothing |
| Usuarios.UsuarioTable.Update | src/services/usuarios.service.js:75-123 | null without writing for a missing id; the current row when no column key is present; a failure changes nothing; otherwise only that row is replaced by its patched version, which is returned |
| Usuarios.UsuarioTable.Delete | src/services/usuarios.service.js:125-135 | true exactly when a row was stored under the id; afterwards no row is, and every other row is unchanged |
| UsuariosController.ListRequest | src/controllers/usuarios.controller.js:16-26 | the type filter is lowercased; a non-empty type that is not allowed gives 400 before any query, otherwise the filter passed on is the lowercased one |
| UsuariosController.ListIgnoresCase | src/controllers/usuarios.controller.js:18-20 | the type filter ignores case |
| UsuariosController.GetUsuarios | src/controllers/usuarios.controller.js:16-35 | 400 for a bad type; otherwise 200 with exactly the matching users, no id twice, newest first |
| UsuariosController.GetUsuario | src/controllers/usuarios.controller.js:37-56 | 400 for an invalid id, 404 for a missing user, otherwise 200 with the stored row |
| UsuariosController.CreateRequest | src/controllers/usuarios.controller.js:58-73 | name and e-mail must be truthy (checked first, no trimming), then a type sent as a string must be allowed once lowercased; the store receives name, e-mail and phone as sent |
| UsuariosController.CreatedType | src/controllers/usuarios.controller.js:60-73 | a user created through the handler gets the type it asked for, lowercased, and `cliente` when it sent none |
| UsuariosController.CreateUsuarioHandler | src/controllers/usuarios.controller.js:58-82 | 400 with the first failing check and no insert; a failure gives the mapped error response and no insert; otherwise 201 with the inserted row |
| UsuariosController.UpdateRequest | src/controllers/usuarios.controller.js:84-101 | the type check comes before the id check; the payload holds every other body key unchanged, plus the lowercased type exactly when a string type was sent |
| UsuariosController.UpdatedType | src/controllers/usuarios.controller.js:86-101 | through the handler a user's type changes only to an allowed type sent as a string, in any case |
| UsuariosController.UpdateUsuarioHandler | src/controllers/usuarios.controller.js:84-115 | 400 for a rejected request, 404 for a missing user, 200 with the current row when nothing is written, the error response on a failure, otherwise 200 with the patched row |
| UsuariosController.DeleteUsuarioHandler | src/controllers/usuarios.controller.js:117-136 | 400 for an invalid id; otherwise the row is removed, 204 when it existed and 404 when it did not |
| Categorias.ByNomeTotal | src/services/categorias.service.js:10 | `ORDER BY nome ASC` is a total preorder |
| Categorias.CategoriaTable.List | src/services/categorias.service.js:3-15 | every stored row, no id twice, ordered by name |
| Categorias.CategoriaTable.GetById | src/services/categorias.service.js:17-30 | the row under the id, or null exactly when there is none |
| Categorias.CategoriaTable.Create | src/services/categorias.service.js:32-44 | one new row under the next id holding the trimmed name, returned as stored; a failing insert changes nothing |
| Categorias.CategoriaTable.Update | src/services/categorias.service.js:46-68 | null without writing for a missing id; the current row when the payload has no `nome` key; otherwise only that row's name is replaced by the trimmed value (undefined writes NULL) |
| Categorias.CategoriaTable.Delete | src/services/categorias.service.js:70-80 | true exactly when a row was stored under the id; afterwards no row is, and every other row is unchanged |
| CategoriasController.GetCategorias | src/controllers/categorias.controller.js:15-26 | 200 with every category, no id twice, ordered by name |
| CategoriasController.GetCategoria | src/controllers/categorias.controller.js:28-47 | 400 for an invalid id, 404 for a missing category, otherwise 200 with the stored row |
| CategoriasController.CreateRequest | src/controllers/categorias.controller.js:51-54 | rejected with 400 exactly when the name is not a string or is blank once trimmed; the trimmed, non-empty name is passed on |
| CategoriasController.CreateStoresCheckedName | src/controllers/categorias.controller.js:51-56 | the name stored is exactly the one the handler checked, and it is not empty |
| CategoriasController.CreateCategoriaHandler | src/controllers/categorias.controller.js:49-65 | 400 and no insert for a missing name; the error response and no insert on a failure; otherwise 201 with the inserted row |
| CategoriasController.UpdateRequest | src/controllers/categorias.controller.js:69-79 | a string name blank once trimmed gives 400 before the id is looked at; then an invalid id gives 400; the store receives the id and the trimmed name, or undefined for a non-string name |
| CategoriasController.UpdateWithoutNameClears | src/controllers/categorias.controller.js:79 | a request without a string name still sends the `nome` key, so the stored name is cleared rather than kept |
| CategoriasController.UpdateCategoriaHandler | src/controllers/categorias.controller.js:67-92 | 400 for a rejected request, 404 for a missing category, the error response on a failure, otherwise 200 with the row whose name was replaced |
| CategoriasController.DeleteCategoriaHandler | src/controllers/categorias.controller.js:94-113 | 400 for an invalid id; otherwise the row is removed, 204 when it existed and 404 when it did not |
| Cidades.ByNomeTotal | src/services/cidades.service.js:22 | `ORDER BY nome ASC` is a total preorder |
| Cidades.SetList | src/services/cidades.service.js:67-82 | the `SET` list built key by key yields the patched row (name trimmed, state upper-cased) and is empty exactly when neither key is present |
| Cidades.CidadeTable.List | src/services/cidades.service.js:3-28 | exactly the stored rows whose state equals the upper-cased filter when the filter is truthy, no id twice, ordered by name |
| Cidades.CidadeTable.GetById | src/services/cidades.service.js:30-44 | the row under the id, or null exactly when there is none |
| Cidades.CidadeTable.Create | src/services/cidades.service.js:46-59 | one new row under the next id with the trimmed name and the upper-cased state, returned as stored; a failing insert changes nothing |
| Cidades.CidadeTable.Update | src/services/cidades.service.js:61-96 | null without writing for a missing id; the current row when neither key is present; a failure changes nothing; otherwise only that row is replaced by its patched version |
| Cidades.CidadeTable.Delete | src/services/cidades.service.js:98-108 | true exactly when a row was stored under the id; afterwards no row is, and every other row is unchanged |
| CidadesController.ListRequest | src/controllers/cidades.controller.js:18-23 | the state filter is upper-cased; a non-empty one that is not two letters gives 400, otherwise the upper-cased filter is passed on |
| CidadesController.ListIgnoresCase | src/controllers/cidades.controller.js:18 | `sp` and `SP` give the same filter |
| CidadesController.GetCidades | src/controllers/cidades.controller.js:16-32 | 400 for a bad state; otherwise 200 with exactly the matching cities, no id twice, ordered by name |
| CidadesController.GetCidade | src/controllers/cidades.controller.js:34-53 | 400 for an invalid id, 404 for a missing city, otherwise 200 with the stored row |
| CidadesController.CreateRequest | src/controllers/cidades.controller.js:57-66 | the trimmed name and the upper-cased, untrimmed state must both be non-empty (400), then the state must be two letters (400); both are passed on |
| CidadesController.CreateStoresCheckedValues | src/controllers/cidades.controller.js:57-68 | a city created through the handler stores exactly the checked name and state |
| CidadesController.CreateCidadeHandler | src/controllers/cidades.controller.js:55-77 | 400 and no insert for a rejected request; the error response and no insert on a failure; otherwise 201 with the inserted row |
| CidadesController.UpdateRequest | src/controllers/cidades.controller.js:81-97 | a blank string name gives 400, then a state sent as a string that is not two letters gives 400, and only then an invalid id gives 400; both keys are passed on, undefined for non-strings |
| CidadesController.UpdateClearsOmittedFields | src/controllers/cidades.controller.js:97 | since both keys are always sent, a field left out of the body is cleared, and a field sent is stored checked |
| CidadesController.UpdateCidadeHandler | src/controllers/cidades.controller.js:79-110 | 400 for a rejected request, 404 for a missing city, the error response on a failure, otherwise 200 with the patched row |
| CidadesController.DeleteCidadeHandler | src/controllers/cidades.controller.js:112-131 | 400 for an invalid id; otherwise the row is removed, 204 when it existed and 404 when it did not |
| Imoveis.Related | src/services/imoveis.service.js:22-23 | a `LEFT JOIN` on a foreign key finds the row whose id equals the key, and finds nothing when no id equals it (a NULL or fractional key included) |
| Imoveis.JoinedKeepsRow | src/services/imoveis.service.js:6-24 | the joined view keeps every column of the property, and shows NULL names when the property has no category or city or when none matches |
| Imoveis.JoinAll | src/services/imoveis.service.js:6-24 | one joined view per listed row, in the same order |
| Imoveis.JoinAllMembers | src/services/imoveis.service.js:6-24 | the joined list holds exactly the views of the listed rows |
| Imoveis.ZeroFiltersIgnored | src/services/imoveis.service.js:40-64 | a bound or reference filter of zero, or an empty search, admits the same rows as no filter, because the filters are tested for truthiness |
| Imoveis.PushedConditionsHold | src/services/imoveis.service.js:27-64 | the conditions pushed for the first n filters hold exactly when each of those filters that applies holds |
| Imoveis.ConditionsMatch | src/services/imoveis.service.js:27-66 | the seven guarded conditions together admit exactly the rows `Matches` admits |
| Imoveis.Conditions | src/services/imoveis.service.js:27-66 | the `conditions` list built filter by filter admits exactly the rows matching the conjunction of the applied filters (type and status only when allowed, others when truthy, search as a substring of title or description) |
| Imoveis.SelectMatches | src/services/imoveis.service.js:66-75 | the query with the built conditions returns exactly the stored rows the filters admit |
| Imoveis.NewerTotal | src/services/imoveis.service.js:72 | `ORDER BY i.criado_em DESC` is a total preorder |
| Imoveis.Inserted | src/services/imoveis.service.js:92-115 | the inserted row keeps the payload's columns and is well formed; a type outside the allowed set becomes NULL and a status outside it becomes `disponivel` |
| Imoveis.PatchedWellFormed | src/services/imoveis.service.js:139-169 | an update keeps id and creation time and never breaks the row invariant; a type or status that is not allowed keeps the stored one |
| Imoveis.PatchedUntouched | src/services/imoveis.service.js:171-173 | a payload with no column key changes nothing |
| Imoveis.StageColumns | src/services/imoveis.service.js:129-169 | after the first n guarded blocks, each column holds its new value exactly when its block came among them and its key is present |
| Imoveis.PushedFieldsEmpty | src/services/imoveis.service.js:126-171 | nothing has been pushed after n blocks exactly when none of their keys is present |
| Imoveis.PushedFieldsPatch | src/services/imoveis.service.js:126-173 | running all eight blocks yields the patched row and pushes nothing exactly when the payload has no column key |
| Imoveis.SetList | src/services/imoveis.service.js:126-173 | the `SET` list built block by block yields the patched row and is empty exactly when no column key is present |
| Imoveis.ImovelTable.List | src/services/imoveis.service.js:26-78 | exactly the joined views of the stored rows the filters admit, no property id twice, newest first |
| Imoveis.ImovelTable.GetById | src/services/imoveis.service.js:80-90 | the joined view of the row under the id, or null exactly when there is none |
| Imoveis.ImovelTable.Create | src/services/imoveis.service.js:92-118 | one new row under the next id, returned joined; a failing insert changes nothing |
| Imoveis.ImovelTable.Update | src/services/imoveis.service.js:120-187 | null without writing for a missing id; the current joined row when no column key is present; a failure changes nothing; otherwise only that row is replaced by its patched version, returned joined |
| Imoveis.ImovelTable.Delete | src/services/imoveis.service.js:189-199 | true exactly when a row was stored under the id; afterwards no row is, and every other row is unchanged |
| ImoveisController.TextOrNull | src/controllers/imoveis.controller.js:128 | a string is kept as it is; anything else becomes NULL |
| ImoveisController.ReferenceCheck | src/controllers/imoveis.controller.js:104-113 | a category or city reference is refused exactly when it was sent (not undefined, null or empty) and is not a finite number; an accepted one is NULL exactly when it was not sent |
| ImoveisController.ReferenceLooserThanId | src/controllers/imoveis.controller.js:104-113 | `true` is accepted as reference 1, and a fractional or non-positive number is accepted although `parseId` refuses it; a fractional reference joins no row |
| ImoveisController.ListRequest | src/controllers/imoveis.controller.js:28-46 | a truthy lowercased type that is not allowed gives 400, then the same for the status; otherwise every filter is passed on parsed, an unparsable number becoming no filter |
| ImoveisController.ListIgnoresTipoCase | src/controllers/imoveis.controller.js:28 | `CASA` and `casa` are the same type filter |
| ImoveisController.ListLenient | src/controllers/imoveis.controller.js:28-46 | an empty type or status is no filter rather than an error, and a price bound that does not parse is dropped rather than refused |
| ImoveisController.GetImoveis | src/controllers/imoveis.controller.js:26-57 | 400 for a bad type or status; otherwise 200 with exactly the joined properties the filters admit, no id twice, newest first |
| ImoveisController.GetImovel | src/controllers/imoveis.controller.js:59-80 | 400 for an invalid id, 404 for a missing property, otherwise 200 with its joined row and exactly its photos |
| ImoveisController.CreateRequest | src/controllers/imoveis.controller.js:84-135 | accepted exactly when type, status, title, price, category and city all pass; the first failing check, in that order, decides the 400 message; the payload holds the lowercased type, the status or `disponivel`, the trimmed title, the parsed price (at least 0) and references |
| ImoveisController.CreateStoresPayload | src/controllers/imoveis.controller.js:126-137 | a payload that passed the checks is stored as sent: the service's type and status fallbacks are never taken from HTTP, and a missing status is stored as `disponivel` |
| ImoveisController.CreateIgnoresTipoCase | src/controllers/imoveis.controller.js:84 | `Casa` and `casa` create the same property |
| ImoveisController.CreateReadsFields | src/controllers/imoveis.controller.js:84-135 | the create checks read only type (up to case), status, title, price, category, city, description and address |
| ImoveisController.CreateImovelHandler | src/controllers/imoveis.controller.js:82-146 | 400 and no insert for a rejected body; the error response and no insert on a failure; otherwise 201 with the joined inserted row |
| Parsing.KeyOf | src/controllers/imoveis.controller.js:156 | a key is present in an update payload exactly when it is an own key of the body, with its converted value |
| ImoveisController.UpdateRequest | src/controllers/imoveis.controller.js:150-222 | the id is checked first, then title, type, category, city, price and status, each only when its key is present; the first failure decides the 400 message; otherwise the payload holds exactly the validated present keys |
| ImoveisController.UpdateWrites | src/controllers/imoveis.controller.js:150-224 | an accepted update writes each present column checked (trimmed non-empty title, allowed type and status, non-negative price, parsed references) and keeps every absent column; it writes something exactly when some column key is present |
| ImoveisController.UpdateIgnoresOtherKeys | src/controllers/imoveis.controller.js:150-222 | keys other than the eight columns change neither the checks nor the payload |
| ImoveisController.EmptyStatusAsymmetry | src/controllers/imoveis.controller.js:89-92 | an empty status is accepted on create and stored as `disponivel`, but refused on update |
| ImoveisController.UpdateImovelHandler | src/controllers/imoveis.controller.js:148-237 | 400 for a rejected request, 404 for a missing property, 200 with the current joined row when nothing is written, the error response on a failure, otherwise 200 with the joined patched row |
| ImoveisController.DeleteImovelHandler | src/controllers/imoveis.controller.js:239-258 | 400 for an invalid id; otherwise the row is removed, 204 when it existed and 404 when it did not |
| Contratos.Joined | src/services/contratos.service.js:5-21 | the view of a linked contract keeps its columns and carries its property's title and its user's name and e-mail |
| Contratos.JoinAll | src/services/contratos.service.js:5-21 | one joined view per linked row, in the same order |
| Contratos.JoinAllMembers | src/services/contratos.service.js:5-21 | the joined list holds exactly the views of the listed rows |
| Contratos.PushedConditionsHold | src/services/contratos.service.js:24-40 | the conditions pushed for the first n filters hold exactly when each of those filters that applies holds |
| Contratos.ConditionsMatch | src/services/contratos.service.js:24-42 | the three guarded conditions together admit exactly the rows `Matches` admits |
| Contratos.Conditions | src/services/contratos.service.js:24-42 | the `conditions` list built filter by filter admits exactly the rows matching the conjunction of the truthy property and user filters and the type filter when it is allowed |
| Contratos.NewerTotal | src/services/contratos.service.js:48 | `ORDER BY ct.criado_em DESC` is a total preorder |
| Contratos.Inserted | src/services/contratos.service.js:68-88 | the inserted row keeps property, user, dates and price and is well formed; a type outside {aluguel, venda} becomes NULL |
| Contratos.PatchedWellFormed | src/services/contratos.service.js:102-137 | an update keeps id and creation time and never breaks the row invariant; a type that is not allowed keeps the stored one; a payload with no column key changes nothing |
| Contratos.StageColumns | src/services/contratos.service.js:102-133 | after the first n guarded blocks, each column holds its new value exactly when its block came among them and its key is present |
| Contratos.PushedFieldsEmpty | src/services/contratos.service.js:99-135 | nothing has been pushed after n blocks exactly when none of their keys is present |
| Contratos.PushedFieldsPatch | src/services/contratos.service.js:99-137 | running all six blocks yields the patched row and pushes nothing exactly when the payload has no column key |
| Contratos.SetList | src/services/contratos.service.js:99-137 | the `SET` list built block by block yields the patched row and is empty exactly when no column key is present |
| Contratos.ContratoTable.List | src/services/contratos.service.js:23-54 | exactly the joined views of the stored rows that the filters admit and whose property and user both exist (the inner joins), no contract id twice, newest first |
| Contratos.ContratoTable.GetById | src/services/contratos.service.js:56-66 | the joined view of the row under the id, or null exactly when there is none or its property or user is missing |
| Contratos.ContratoTable.Create | src/services/contratos.service.js:68-91 | one new row under the next id, returned as read back by id; a failing insert changes nothing |
| Contratos.ContratoTable.Update | src/services/contratos.service.js:93-151 | null without writing when the row is missing or not linked; the current joined row when no column key is present; a failure changes nothing; otherwise only that row is patched and it is returned as read back |
| Contratos.ContratoTable.Delete | src/services/contratos.service.js:153-163 | true exactly when a row was stored under the id, linked or not; afterwards no row is, and every other row is unchanged |
| Contratos.SelectLinked | src/services/contratos.service.js:18-20 | the query with the built conditions and the inner joins returns exactly the stored, linked rows the filters admit |
| Contratos.JoinAllSorted | src/services/contratos.service.js:48 | joining keeps the newest-first order |
| ContratosController.DateOrNull | src/controllers/contratos.controller.js:149-150 | `v \|\| null` for a date that passed the check: a date is stored exactly when it is truthy, and then as the text sent |
| ContratosController.DateChecks | src/controllers/contratos.controller.js:124-130 | an empty or absent date passes and is stored as NULL; `2024-13-45` passes unchanged; `2024-1-01` is refused |
| ContratosController.ListRequest | src/controllers/contratos.controller.js:30-64 | a truthy lowercased type that is not allowed gives 400, then a sent property filter that is not a positive integer, then the same for the user filter; otherwise the filters are passed on parsed, and an id filter is absent exactly when it was not sent |
| ContratosController.ListFiltersActive | src/controllers/contratos.controller.js:60-64 | every id filter passed on is positive, so the service's truthiness test never drops it |
| ContratosController.GetContratos | src/controllers/contratos.controller.js:28-75 | 400 for a rejected query; otherwise 200 with exactly the linked contracts the filters admit, joined, no id twice, newest first |
| ContratosController.GetContrato | src/controllers/contratos.controller.js:77-96 | 400 for an invalid id, 404 when the contract is missing or its property or user is, otherwise 200 with the joined row |
| ContratosController.CreateRequest | src/controllers/contratos.controller.js:100-130 | property id, user id, type, price, start date and end date are checked in that order, the first failure deciding the 400 message, before any lookup; the payload holds the ids, the lowercased type, the price and the dates or NULL |
| ContratosController.CreateStoresPayload | src/controllers/contratos.controller.js:145-152 | a contract created through the handler stores the type it was sent, and each date is NULL or text of the `YYYY-MM-DD` shape |
| ContratosController.CreateContratoHandler | src/controllers/contratos.controller.js:98-162 | 400 for a rejected body; then 404 `Imóvel informado não existe.` for a missing property, before 404 `Usuário informado não existe.` for a missing user, with no insert in any of these; the error response on a failure; otherwise 201 with the joined inserted row |
| ContratosController.UpdateRequest | src/controllers/contratos.controller.js:166-218 | the id is checked first, then each present key in the order property, user, type, start date, end date, price; the first failure decides the 400 message; otherwise the payload holds exactly the validated present keys |
| ContratosController.UpdateWrites | src/controllers/contratos.controller.js:166-218 | an accepted update writes each present column checked (positive ids, allowed type, well-shaped or NULL dates, non-negative price) and keeps every absent column |
| ContratosController.UpdateClearsEmptyDate | src/controllers/contratos.controller.js:198-203 | sending an empty or null start date on update clears the stored date |
| ContratosController.UpdateContratoHandler | src/controllers/contratos.controller.js:164-247 | 400 for a rejected request; 404 for a present property id that does not exist, then for a present user id that does not exist; 404 when the contract is missing or unlinked; 200 with the current row when nothing is written; the error response on a failure; otherwise 200 with the joined patched row |
| ContratosController.OrphanedContract | src/controllers/contratos.controller.js:77-96 | a contract whose property has been deleted is not found by id although its row is still stored |
| ContratosController.DeleteContratoHandler | src/controllers/contratos.controller.js:249-269 | 400 for an invalid id; otherwise the row is removed, 204 when it existed and 404 when it did not |
| Fotos.PhotoKeys | src/services/fotos.service.js:12-13 | the keys `WHERE imovel_id = ? ORDER BY id ASC` reads, all stored |
| Fotos.PhotoKeysFacts | src/services/fotos.service.js:12-13 | the keys read are exactly the stored keys of that property's photos, each once, ascending |
| Fotos.PhotoKeysSound | src/services/fotos.service.js:12-13 | every key read is below the counter and belongs to the property |
| Fotos.PhotoKeysComplete | src/services/fotos.service.js:12-13 | every stored photo of the property below the counter is read |
| Fotos.PhotoKeysAscending | src/services/fotos.service.js:12-13 | the keys are read in strictly ascending order |
| Fotos.PhotoKeysBelow | src/services/fotos.service.js:12-13 | rows at or above the counter do not change the keys read below it |
| Fotos.PhotosOfFrame | src/services/fotos.service.js:3-19 | a row stored at the counter does not change the listing below it |
| Fotos.PhotosOfInsert | src/services/fotos.service.js:38-50 | inserting the next row appends it to its property's listing and leaves every other property's listing alone |
| Fotos.PhotosOfMembers | src/services/fotos.service.js:3-19 | exactly the photos of the property are listed, in ascending id order |
| Fotos.FotoTable.ListByImovel | src/services/fotos.service.js:3-19 | exactly the stored photos of that property, in ascending id order |
| Fotos.FotoTable.GetById | src/services/fotos.service.js:21-36 | the row under the id, or null exactly when there is none |
| Fotos.FotoTable.Create | src/services/fotos.service.js:38-50 | one new row under the next id with the given property, url and description (NULL when absent), returned as stored; every other row is unchanged; a failing insert changes nothing |
| Fotos.FotoTable.Delete | src/services/fotos.service.js:52-62 | the row goes only when both its id and its property match, and the result is true exactly then; every other row is unchanged |
| Uploads.DecimalPlain | src/utils/uploads.js:5-9 | `String(id)` of a natural number is a plain path segment |
| Uploads.UploadRootSegments | src/config/uploads.js:3 | the upload root is the absolute path `/app/uploads`, made of plain segments |
| Uploads.RootJoinPlain | src/utils/uploads.js:5-6 | joining plain segments onto the upload root needs no normalising |
| Uploads.UploadDirPlain | src/utils/uploads.js:5-6 | `getImovelUploadDir(id)` of a plain id is `<uploadRoot>/imoveis/<id>`, strictly inside the upload root |
| Uploads.PublicUrlJoin | src/utils/uploads.js:8-9 | `toPublicUrl` joins `/uploads`, `imoveis`, the id and the name |
| Uploads.PublicUrlPlain | src/utils/uploads.js:8-9 | `toPublicUrl(id, f)` is `/uploads/imoveis/<id>/<f>` for a plain file name f |
| Uploads.NonEmptyPaths | src/utils/uploads.js:13-14 | the paths kept are exactly the listed non-empty ones |
| Uploads.Disk.DeleteFilesSafely | src/utils/uploads.js:11-21 | every listed non-empty path is unlinked unless its unlink fails; failures are swallowed, so the call never fails; no other file is touched |
| Paths.Split | src/utils/uploads.js:5-9 | splitting a path at its slashes gives at least one segment |
| Paths.SplitAtSlash | src/utils/uploads.js:5-9 | splitting at one more slash splits both sides |
| Paths.SplitJoin | src/utils/uploads.js:5-9 | joining slash-free pieces and splitting again gives the pieces back |
| Paths.ResolvePlain | src/controllers/fotos.controller.js:45-57 | plain segments after any prefix are kept as they are by normalising |
| Paths.NormalizePlain | src/utils/uploads.js:5-9 | an absolute path made of plain segments is already normal |
| Paths.JoinAppend | src/utils/uploads.js:5-9 | joining two non-empty lists of segments is joining their joins |
| Paths.Basename | src/routes/fotos.routes.js:35-38 | `path.basename` is the slash-free suffix after the last slash |
| Paths.ExtNameShape | src/routes/fotos.routes.js:35-38 | an extension is a dot followed by no other dot or slash; there is none when the base name has no dot, and there is one when it has a dot after its first character |
| Paths.PathJoinPlain | src/utils/uploads.js:5-6 | joining plain segments onto an absolute path of plain segments needs no normalising |
| Paths.TailLengthAfter | src/controllers/fotos.controller.js:28-31 | the text after the last slash of `x/y`, where y has no slash, is y |
| Paths.ExtNameOf | src/routes/fotos.routes.js:35-38 | a slash-free name that does not start with a dot is its own base name, and its extension starts at its last dot |
| FotosController.UrlFilename | src/controllers/fotos.controller.js:28-31 | a filename exists exactly when the url has a `/`; it is the slash-free tail after the last `/` |
| FotosController.MapFotoToResponse | src/controllers/fotos.controller.js:23-40 | the response copies id, property, url and description and adds the url's filename |
| FotosController.Responses | src/controllers/fotos.controller.js:72-74 | the listing is mapped photo by photo, same length and order |
| FotosController.FilenameOfPublicUrl | src/controllers/fotos.controller.js:28-31 | the filename of an uploaded photo's public url is the stored file's name |
| FotosController.ToAbsoluteFilePath | src/controllers/fotos.controller.js:45-57 | a file exists exactly for urls starting `/uploads/`; it is the upload root joined with the rest of the url |
| FotosController.EscapeSplit | src/controllers/fotos.controller.js:55-56 | the segments of `<uploadRoot>/../x` before normalising |
| FotosController.EscapeSplitTail | src/controllers/fotos.controller.js:55-56 | the segments of `uploads/../x` before normalising |
| FotosController.EscapeResolve | src/controllers/fotos.controller.js:55-56 | normalising `/app/uploads/../x` climbs out of `uploads` |
| FotosController.AbsolutePathEscapesRoot | src/controllers/fotos.controller.js:45-57 | the url `/uploads/../x` passes the prefix test and names `/app/x`, outside the upload root |
| FotosController.SafeAbsoluteFilePath | src/controllers/fotos.controller.js:45-57 | a file is named only inside the upload root, and then it is the as-written path; every as-written path inside the root is kept |
| FotosController.PublicUrlRelative | src/utils/uploads.js:8-9 | a public url starts with `/uploads/` and continues `imoveis/<id>/<filename>` |
| FotosController.UnderRootPlain | src/controllers/fotos.controller.js:55-56 | joining plain segments onto the root is plain concatenation |
| FotosController.PublicUrlRoundTrip | src/controllers/fotos.controller.js:45-57 | the public url of a stored upload leads back to `<upload dir of id>/<filename>`, and the safe reading agrees |
| FotosController.PathsOf | src/controllers/fotos.controller.js:42-43 | the path of each uploaded file, in order |
| FotosController.PublicUrls | src/controllers/fotos.controller.js:128-129 | one public url per uploaded file |
| FotosController.PublicUrlsAt | src/controllers/fotos.controller.js:128-129 | the j-th url is the public url of the j-th file's stored name |
| FotosController.BatchFotos | src/controllers/fotos.controller.js:128-131 | the rows created by the first n inserts, one per file |
| FotosController.BatchRowsFacts | src/controllers/fotos.controller.js:128-131 | the batch stores exactly the keys start .. start+n-1, the j-th with the j-th file's row |
| FotosController.MergeUpdate | src/controllers/fotos.controller.js:130 | one insert after a merge writes into the batch side |
| FotosController.BatchResponses | src/controllers/fotos.controller.js:133-137 | one response per created row, carrying the original name and size |
| FotosController.FirstFault | src/controllers/fotos.controller.js:126-141 | the first failing insert: all before it succeed, it fails, or none of the n fails |
| FotosController.RolledBack | src/controllers/fotos.controller.js:143-150 | the batch keys whose compensating delete succeeds |
| FotosController.RollbackRestores | src/controllers/fotos.controller.js:141-152 | when every compensating delete succeeds the table is as before the batch |
| FotosController.BatchListed | src/controllers/fotos.controller.js:128-140 | after the batch the property lists its earlier photos, then the new ones in file order |
| FotosController.BatchListedStep | src/controllers/fotos.controller.js:128-131 | one more insert extends the batch listing by one row |
| FotosController.BatchRowsNext | src/controllers/fotos.controller.js:130 | the batch of n rows is the batch of n-1 rows plus one key above all others |
| FotosController.ListedAfterBatch | src/controllers/fotos.controller.js:128-140 | the table's listing after the batch is the earlier photos then the batch |
| FotosController.ListingIs | src/services/fotos.service.js:3-19 | the listing is the photos of that property below the counter, ascending |
| FotosController.InsertListed | src/services/fotos.service.js:38-50 | an insert under the next key appends the row to its property's listing |
| FotosController.GetFotos | src/controllers/fotos.controller.js:59-82 | 400 for a bad id, 404 for a missing property, else 200 with that property's photos mapped, in id order |
| FotosController.InsertBatch | src/controllers/fotos.controller.js:124-138 | inserts one row per file in order, stopping at the first fault, which it returns; rows, ids and responses are those of the successful prefix |
| FotosController.Rollback | src/controllers/fotos.controller.js:143-150 | deletes each created row, ignoring failed deletes; the table loses exactly the rolled-back keys |
| FotosController.AddExternalUrl | src/controllers/fotos.controller.js:102-114 | an empty url is a 400; otherwise one row with the next id, or the insert's error |
| FotosController.AddUploads | src/controllers/fotos.controller.js:116-153 | over quota: 400 and cleanup; all inserts succeed: 201 with the batch appended and at most the quota stored; a fault: its error, cleanup and rollback |
| FotosController.StoreBatch | src/controllers/fotos.controller.js:124-153 | success appends the batch and leaves the disk alone; a fault removes the stored files and rolls back the created rows |
| FotosController.UndoBatch | src/controllers/fotos.controller.js:143-150 | rolls the created rows back; with no failed delete the table is as before the batch |
| FotosController.CreateFotoHandler | src/controllers/fotos.controller.js:84-161 | every branch: bad id, missing property, external url, quota, full success and first fault, each with its table and disk outcome |
| FotosController.DeleteFotoWith | src/controllers/fotos.controller.js:163-200 | the handler's steps with the file chooser as a parameter; its outcome (the predicate DeleteAnswered): 400 for a bad id, 404 for a missing property or a photo of another property, the delete's error, else 204 with the row gone and the chosen file removed unless the unlink fails |
| FotosController.DeleteFotoHandler | src/controllers/fotos.controller.js:163-200 | as written: DeleteAnswered with the file named by `toAbsoluteFilePath`, which can lie outside the upload root |
| FotosController.SafeDeleteFotoHandler | src/controllers/fotos.controller.js:163-200 | as intended: DeleteAnswered with the file named by SafeAbsoluteFilePath, and every file it removes lies inside the upload root |
| FotosController.StoredDirMatchesUrl | src/routes/fotos.routes.js:23-33 | the directory multer stores into, named by the raw route text, is the one the photo's url leads to exactly when that text is the parsed id's decimal rendering |
| FotosController.NumberOfLeadingZero | src/routes/fotos.routes.js:25-28 | `Number("05")` is 5 |
| FotosController.LeadingZeroOrphansUpload | src/routes/fotos.routes.js:23-33 | route text `05` is accepted and parses as id 5, but the file lands in `imoveis/05` while the url names `imoveis/5` |
| FotosController.ParsedDestinationRoundTrip | src/controllers/fotos.controller.js:124-140 | with the directory named by the parsed id, a stored photo's url leads back to the stored file for any accepted route text |
| FotosController.ParsedDestinationAgrees | src/routes/fotos.routes.js:23-33 | on canonical route text the corrected directory is the one multer uses |
| FotosRoutes.Destination | src/routes/fotos.routes.js:23-33 | fails with the invalid-id message exactly when the id is missing, empty or NaN; else the upload directory of the raw text |
| FotosRoutes.DecimalNoSlash | src/routes/fotos.routes.js:25 | a decimal literal has no slash |
| FotosRoutes.NumberNoSlash | src/routes/fotos.routes.js:25 | `Number` of text with a slash is NaN |
| FotosRoutes.TrimKeepsSlash | src/routes/fotos.routes.js:25 | trimming keeps a slash |
| FotosRoutes.DestinationInsideRoot | src/routes/fotos.routes.js:23-33 | every accepted id is one plain segment, so the directory is `<uploadRoot>/imoveis/<id>`, inside the root |
| FotosRoutes.NumberOfFraction | src/routes/fotos.routes.js:25 | `Number("1.5")` is 1.5 |
| FotosRoutes.NumberOfNegative | src/routes/fotos.routes.js:25 | `Number("-3")` is -3 |
| FotosRoutes.DestinationLooserThanParseId | src/routes/fotos.routes.js:25 | a fractional or negative id gets a directory although the handlers reject it |
| FotosRoutes.FilenameFacts | src/routes/fotos.routes.js:34-39 | a generated name is one plain segment carrying the original extension, or `.jpg` when there is none |
| FotosRoutes.StoredExtensionShape | src/routes/fotos.routes.js:35 | the stored extension is a dot followed by neither dot nor slash |
| FotosRoutes.NoSlashJoined | src/routes/fotos.routes.js:38 | `<timestamp>-<random><ext>` has no slash when its parts have none |
| FotosRoutes.FileFilter | src/routes/fotos.routes.js:48-55 | a file is accepted exactly when its MIME type is allowed; otherwise the format message |
| FotosRoutes.HandleUpload | src/routes/fotos.routes.js:58-78 | no error goes on; a size or count error gets its fixed message, another multer error its own message, any other error its message or the fallback; all 400 |
| FotosRoutes.CallbackErrorsReachClient | src/routes/fotos.routes.js:23-78 | a rejected destination or file type reaches the client as a 400 with the callback's message |
| Pool.NestedPart | src/db/pool.js:32-36 | at most one part, absent exactly for a falsy entry or one with neither code nor message, and never empty |
| Pool.NestedParts | src/db/pool.js:30-39 | at most one part per nested entry |
| Pool.FormatConnectionError | src/db/pool.js:15-42 | the pushes and the loop build the text `Formatted` defines |
| Pool.PushNested | src/db/pool.js:31-38 | the loop over the nested errors pushes one part per contributing entry, in order |
| Pool.NestedPartsNonEmpty | src/db/pool.js:33-35 | every pushed nested part is non-empty |
| Pool.NestedPartsEmpty | src/db/pool.js:30-39 | nothing is pushed exactly when every entry is falsy or has neither code nor message |
| Pool.NestedPartsStep | src/db/pool.js:31-38 | one more entry adds exactly that entry's part |
| Pool.FormattedParts | src/db/pool.js:41 | the parts joined with ` \| ` when there are any, which is non-empty; `error.toString()` exactly when there are none |
| Pool.FormattedExamples | src/db/pool.js:22-41 | `CODE \| message` for a code and message, `code: message` for a nested error, and the text when every nested entry contributes nothing |
| Pool.JoinTwo | src/db/pool.js:35 | two parts joined are the first, the separator, the second |
| Pool.AttemptLimit | src/db/pool.js:70-74 | at least one attempt is always made |
| Pool.FirstReachable | src/db/pool.js:56-62 | the first successful attempt at or after k and below the limit: every earlier one failed |
| Pool.Counting | src/db/pool.js:59 | `onAttempt` receives 1, 2, ..., n |
| Pool.ConnectionPool.constructor | src/db/pool.js:4-13 | a pool with no connection in use |
| Pool.ConnectionPool.Acquire | src/db/pool.js:60 | one more connection in use and handed out |
| Pool.ConnectionPool.Release | src/db/pool.js:76-80 | one fewer connection in use |
| Pool.TestConnection | src/db/pool.js:46-82 | every acquired connection is released; success at the first reachable attempt with `onAttempt` 1..n+1, else the enhanced error of the last attempt after exactly the attempt limit |
| Pool.AttemptCounts | src/server.js:8 | with five retries at most six attempts, with none exactly one |
| Pool.FirstReachableLeast | src/db/pool.js:56-62 | the loop stops no later than any attempt that reaches the database |

## Left out

- SQL text, the mysql2 driver, collation and type conversion: each query is modelled by its effect on the table maps. Numbers are stored as reals.
- `LIKE '%busca%'`: modelled as a plain substring test. The `%` and `_` wildcards inside the search text are not modelled.
- Reads never fail in the model. A failing read in the photo handler would leave uploaded files behind, and that path is not modelled.
- `Number(…)`: exponent, hexadecimal, octal and binary literals are not modelled; such text reads as NaN. `Number` of an array or object is NaN.
- A date column stores `value || null`. A truthy non-string value would reach the database as is; the model only follows strings.
- The Express app and the router wiring outside `src/routes/fotos.routes.js` are not modelled: `src/app.js`, `src/server.js`, `src/routes/index.js` and the other route files. The JSON serialisation of responses is not modelled either. `next(error)` becomes the 500 `Internal Server Error` that the last handler of `src/app.js` answers.
- `src/controllers/health.controller.js` is not part of this model: it only reports a timestamp.
- multer internals are left out: parsing the multipart body, `limits.fileSize`, and what multer removes after a `LIMIT_*` error. `fs.mkdirSync` is left out too.
- The file system is a set of absolute paths. `unlink` failures are given as the set `failing`.
- `Date.now()` and `Math.random()` are parameters of `FotosRoutes.Filename`.
- `uploadRoot` is the constant `/app/uploads`, which fixes `process.cwd()` to `/app`. Relative paths and trailing slashes are not normalised.
- `Promise.all` over the compensating deletes is modelled as a sequence of deletes. Each delete's outcome is given in `rollbackFaults`.
- Concurrency is not modelled. In particular the read-then-act quota race between concurrent uploads to one property is not modelled.
- `mapFotoToResponse(null)` is left out: the service never hands the controller a null photo.
- The `{ fotos: … }` wrapper of the photo responses is left out: the body is the list itself.
- Pool.TestConnection: does not model `sleep(delay)`, the pool's size, queueing or configuration. It also does not model an `onAttempt` that throws, or a non-integer `retries`.
- Pool.TestConnection: the host and port come from the environment in the source; here they are parameters.
- JsValues.ToUpper: maps only the ASCII letters. JavaScript's `toUpperCase` also applies the Unicode mappings, some of which change the length or turn a non-ASCII letter into an ASCII one: `"ß"` becomes `"SS"` and `"ſ"` becomes `"S"`. So a state such as `"ß"` or `"ſp"` passes the two-letter check in the source, while the model answers 400.
- JsValues.ToLower: maps only the ASCII letters. JavaScript's `toLowerCase` also maps non-ASCII letters, for example U+212A KELVIN SIGN to `"k"`. So a type spelled with such a letter is accepted by the source and rejected by the model.
- Uploads.ToPublicUrl: takes the parsed id as a natural number, so the model does not cover non-numeric ids there.
- ImoveisController.UpdatePatch and ContratosController.UpdatePatch: the payload the handler builds key by key is modelled as one pure function over the body.

## Findings

| source | as written | input that shows it | evidently intended | confidence | as-written member | corrected member |
|---|---|---|---|---|---|---|
| src/controllers/fotos.controller.js:45-57 | `toAbsoluteFilePath` only checks that the url starts with `/uploads/` and then `path.join`s the rest onto the upload root. A url sent by the client through the external-url path of `createFoto` may contain `..` segments. | a photo created with url `/uploads/../package.json`, then deleted: the file removed is `/app/package.json` | only files inside the upload root are ever deleted | not executed | FotosController.AbsolutePathEscapesRoot | FotosController.SafeAbsoluteFilePath |
| src/routes/fotos.routes.js:23-33 | multer's `destination` names the directory by the raw route text `req.params.imovelId`, while the handler builds the photo's url from `parseId` of the same text (src/controllers/fotos.controller.js:124-129). | an upload to `/imoveis/05/fotos`: the file is stored under `/app/uploads/imoveis/05`, the url is `/uploads/imoveis/5/<file>`, which names no file, and deleting the photo leaves the stored file behind | the directory is named by the parsed id, so the url leads back to the stored file | not executed | FotosController.LeadingZeroOrphansUpload | FotosController.ParsedDestinationRoundTrip |
