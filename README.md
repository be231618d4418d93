# express-jobly: update clauses, auth gates and job queries in Dafny

This project models three pieces of logic from the express-jobly REST backend
(jobs, companies and users over Postgres, guarded by JWT middleware):

- **`sqlForPartialUpdate`** (`helpers/sql.js`). It turns the fields of a
  partial update into the SET text `"col1"=$1, "col2"=$2, ...` and the list of
  values bound to those placeholders. Each column is renamed through a
  translation table. An empty update is rejected with `BadRequestError("No data")`.
  It is modelled as a pure function (`sql.dfy`). Its partner is a decoder that
  reads the SET text back into columns and placeholder numbers, and round-trip
  lemmas connect the two.
- **The authentication middleware** (`middleware/auth.js`).
  - `authenticateJWT` strips a leading `Bearer ` or `bearer ` from the
    Authorization header and trims the rest. It has the token verified and, when
    the token is valid, stores the payload in `res.locals.user`. It always calls
    `next()`. It is a method that updates the `user` field of the
    `ResponseLocals` object it is given.
  - The four gates are pure functions from the request and the content of
    `res.locals.user` to `next()` or `next(err)`: `ensureLoggedIn`,
    `ensureCorrectUser`, `ensureAdmin` and `ensureAdminOrCorrectUser` (`auth.dfy`).
- **The job model's query assembly** (`models/job.js`).
  - `Job.findAll` builds its WHERE text step by step: it appends one condition
    and connective per truthy filter, then cuts the last five characters. This is
    an imperative method proved against a specification function, and lemmas
    relate that function to a plain `" AND "` join.
  - `Job.update` builds the id placeholder `$(N+1)` and the parameter list
    `[...values, id]`.
  - `Job.get`, `Job.update` and `Job.remove` throw `NotFoundError` when their
    query returns no row (`job.dfy`).

Supporting modules:

- `js.dfy` models the JavaScript behaviour the core relies on:
  - values and truthiness;
  - integer-to-string conversion;
  - `String.prototype.trim` with the ECMAScript whitespace set;
  - `slice(0, -k)`.
- `express_error.dfy` models the error values and their HTTP statuses, and a
  `Completion` type (a normal result or a thrown error).
- `wrappers.dfy` defines `Option`.

The database call and `jwt.verify` are abstracted as function-typed
parameters. The model states which query text and parameters are sent and
what happens with the rows that come back.

`ensureCorrectUser` reads `req.user` (middleware/auth.js:49), a slot that
`authenticateJWT` does not write: it stores the payload in `res.locals.user`
(middleware/auth.js:23). The model keeps the two slots apart, and
`Auth.CorrectUserIgnoresAuthentication` shows the consequence: when nothing has
set `req.user`, the gate rejects whatever token was presented.

## Model

| member | source | states |
|---|---|---|
| Sql.ColumnName | helpers/sql.js:13 | The column `jsToSql[colName]` names or, failing that, `colName`: the table's entry when it is a non-empty string, otherwise the key |
| Sql.Fragments | helpers/sql.js:12-14 | The `keys.map`: for key i, the text `"column"=$(i+1)` with the key's column |
| Sql.Join | helpers/sql.js:18 | `cols.join(", ")`: the items with the separator between neighbours, "" for no items |
| Sql.Values | helpers/sql.js:19 | `Object.values(dataToUpdate)`: the values in key order |
| Sql.Placeholder | helpers/sql.js:13 | The `$${idx + 1}` part of the template: "$" followed by the decimal text of the number |
| Sql.Fragment | helpers/sql.js:13 | The template `"${column}"=$${n}`: the column in double quotes, "=" and the placeholder |
| Sql.SqlForPartialUpdate | helpers/sql.js:5-21 | Throws exactly when the update has no keys, and then always BadRequestError("No data"), whatever the table holds; otherwise there are N values and value i is entry i's value |
| Sql.PlaceholderRoundTrip | helpers/sql.js:13 | The placeholder `$n` reads back as n |
| Sql.FragmentRoundTrip | helpers/sql.js:13 | The fragment `"column"=$n` reads back as (column, n), whatever characters the column holds |
| Sql.FragmentsReadBack | helpers/sql.js:12-14 | N keys give N fragments; fragment i names key i's column (table entry or key) and placeholder i+1, so the placeholders are $1..$N in key order |
| Sql.SplitJoin | helpers/sql.js:18 | Joining comma-free items with ", " is undone by splitting at ", " |
| Sql.SetColsReadBack | helpers/sql.js:12-19 | When no column holds a comma, setCols splits into exactly N fragments; fragment i decodes to (column of key i, i+1) and is aligned with value i |
| Sql.ValuesAligned | helpers/sql.js:7-19 | With distinct keys, value i is the value the object holds under key i |
| Sql.SetColsIgnoreValues | helpers/sql.js:12-18 | setCols depends only on the keys and the table: updates with the same keys give the same SET text and fail alike, so values never appear in the text |
| Sql.ColumnFallsBackToKey | helpers/sql.js:13 | An absent or empty-string table entry falls back to the key; with the empty table every column is its key |
| Sql.WorkedExample | helpers/sql.js:11 | {firstName: 'Aliya', age: 32} with firstName translated to first_name gives `"first_name"=$1, "age"=$2` and the values ['Aliya', 32] |
| Js.Truthy | models/job.js:46 | JavaScript truthiness: undefined, null, false, 0 and "" are falsy, everything else is truthy |
| Js.ToJsString | models/job.js:47 | The string a template literal interpolates: "undefined", "null", "true"/"false", the decimal integer, or the string itself |
| Js.IntToString | models/job.js:50 | String(n) for an integer, as `${filters["minSalary"]}` and `No job: ${id}` (models/job.js:80, 110, 129) insert it: non-empty, starting with "-" exactly when n is negative |
| Js.NatToDecimal | helpers/sql.js:13 | The decimal text of n is non-empty, all digits, has no leading zero and parses back to n |
| Js.Trim | middleware/auth.js:22 | trim() returns text with no whitespace at either end, never longer than its input |
| Js.TrimExact | middleware/auth.js:22 | Trimming whitespace + m + whitespace, where m has no whitespace at its ends, gives exactly m |
| Js.TrimIdempotent | middleware/auth.js:22 | Trimming twice is trimming once |
| Js.SliceDropEnd | models/job.js:56 | For k > 0, slice(0, -k) of a string of length at least k leaves the string without its last k characters, and of a shorter string gives ""; slice(0, -0) is "" |
| Auth.AuthHeader | middleware/auth.js:20 | `req.headers && req.headers.authorization` is undefined or a string |
| Auth.StripBearer | middleware/auth.js:22 | `replace(/^[Bb]earer /, "")`: drops the first seven characters when they are "Bearer " or "bearer ", otherwise leaves the header as it is |
| Auth.AuthenticatedUser | middleware/auth.js:20-24 | The value res.locals.user holds after authenticateJWT: the verified payload when the header is truthy and the token verifies, otherwise its prior value |
| Auth.PathUsername | middleware/auth.js:49 | `req.params.username` (also read at line 80): the parameter's string, or undefined when the route has none |
| Auth.HasBearerPrefix | middleware/auth.js:22 | Whether `/^[Bb]earer /` matches: the header starts with "B" or "b" followed by "earer " |
| Auth.ResponseLocals.constructor | middleware/auth.js:23 | `res.locals`, the object whose `user` property line 23 writes; it starts without a user |
| Auth.ExtractToken | middleware/auth.js:22 | The extracted token has no surrounding whitespace |
| Auth.StripBearerRemovesOnePrefix | middleware/auth.js:22 | The replace removes "Bearer " or "bearer " from the front of a header that starts with it |
| Auth.ExtractTokenCases | middleware/auth.js:22 | "Bearer " + t and "bearer " + t give trim(t); a header without either prefix is only trimmed |
| Auth.ExtractTokenOfPaddedToken | middleware/auth.js:22 | "Bearer " or "bearer ", whitespace, a token and whitespace give exactly the token |
| Auth.ExtractTokenOtherCasing | middleware/auth.js:22 | "BEARER abc" keeps its prefix: other casings are not stripped |
| Auth.ExtractTokenOnePrefixOnly | middleware/auth.js:22 | "Bearer Bearer abc" gives "Bearer abc": the prefix is removed once |
| Auth.ExtractTokenPrefixAtStartOnly | middleware/auth.js:22 | "  Bearer abc" gives "Bearer abc": the prefix counts only at the very start |
| Auth.AuthenticateJWT | middleware/auth.js:18-29 | Always ends with next() and no error; res.locals.user becomes the verified payload when the header is present and the token valid, and keeps its prior value otherwise |
| Auth.AuthenticatedUserCases | middleware/auth.js:20-27 | With no or an empty header the user is unchanged and the verifier is not consulted; an invalid token leaves the user unchanged; a valid one stores its payload |
| Auth.UserIn | middleware/auth.js:49 | Reading a property of the user in a slot, as `req.user.username` (line 49) and `res.locals.user.isAdmin` (lines 65, 80) do: the user when the slot is set, otherwise the TypeError the comment at line 55 anticipates |
| Auth.Decide | middleware/auth.js:47-90 | The catch of the three {status: 401} gates: any rejection, whether the test was false or threw, is {status: 401, message: "Unauthorized"} |
| Auth.EnsureLoggedIn | middleware/auth.js:36-43 | Continues if and only if res.locals.user is set; otherwise hands an UnauthorizedError to next |
| Auth.EnsureCorrectUser | middleware/auth.js:47-58 | Continues if and only if req.user is set and its username equals the path's username; otherwise, including when req.user is missing, hands the 401 object to next |
| Auth.EnsureAdmin | middleware/auth.js:63-75 | Continues if and only if res.locals.user is set and its isAdmin is the boolean true; otherwise the 401 object |
| Auth.EnsureAdminOrCorrectUser | middleware/auth.js:78-90 | Continues if and only if res.locals.user is set and is an admin or has the path's username; otherwise the 401 object |
| Auth.EveryRejectionIs401 | middleware/auth.js:36-90 | No gate lets an exception escape: every rejection hands next an error whose status is 401 |
| Auth.GatesNested | middleware/auth.js:63-90 | Passing ensureAdmin implies passing ensureAdminOrCorrectUser, which implies passing ensureLoggedIn |
| Auth.AdminFlagIsStrict | middleware/auth.js:65 | isAdmin false, missing, "true" or 1, or no user at all, is rejected with the 401 object |
| Auth.AdminOrCorrectUserEitherSuffices | middleware/auth.js:80 | The matching user passes even when not an admin, an admin passes for any username, and anyone else is rejected |
| Auth.AnonymousRequestRejected | middleware/auth.js:18-90 | Without an Authorization header and with no prior user, authenticateJWT leaves no user, and ensureLoggedIn, ensureAdmin and ensureAdminOrCorrectUser all reject |
| Auth.CorrectUserIgnoresAuthentication | middleware/auth.js:49 | ensureCorrectUser rejects a request whose req.user is unset, whatever authenticateJWT stored |
| Auth.MissingUsernamesMatch | middleware/auth.js:80 | A token without a username passes ensureAdminOrCorrectUser on a route without a username parameter (undefined === undefined) |
| JobModel.ActiveConditions | models/job.js:45-55 | The conditions findAll appends: none when filters is undefined, otherwise one per truthy filter in the order title, minSalary, hasEquity, with the filter value's string form interpolated |
| JobModel.FilterClause | models/job.js:44-56 | The text placed after `FROM jobs`: "W" with no active condition, otherwise "WHERE " followed by the conditions and what slice(0, -5) leaves of the last connective |
| JobModel.FindAllQuery | models/job.js:57-60 | The SELECT text of findAll around the filter text, with its line breaks, indentation and trailing spaces, and no parameters |
| JobModel.TitleCondition | models/job.js:47 | The title condition `title ILIKE '%${title}%'`, with the title's string form |
| JobModel.MinSalaryCondition | models/job.js:50 | The condition `salary >= ${minSalary}`, with the value's string form |
| JobModel.EquityCondition | models/job.js:53 | The condition `equity > 0` |
| JobModel.Connective | models/job.js:47-53 | The text appended after a condition: " AND  " (two trailing spaces) after the title's, " AND " after the others |
| JobModel.AppendTitle | models/job.js:46-48 | Appending the title text adds the title condition and its two-space connective to the accumulated pieces |
| JobModel.AppendMinSalary | models/job.js:49-51 | Appending the salary text adds the minSalary condition and " AND " to the accumulated pieces |
| JobModel.AppendEquity | models/job.js:52-54 | Appending the equity text adds the hasEquity condition and " AND " to the accumulated pieces |
| JobModel.PiecesSnoc | models/job.js:44-55 | Appending one more condition appends its piece to the accumulated text |
| JobModel.FilterStatement | models/job.js:44-55 | The accumulated filterStatement is "WHERE " followed by a condition and its connective for each truthy filter, in the order title, minSalary, hasEquity |
| JobModel.PiecesEndWithCut | models/job.js:47-56 | The accumulated conditions end with the five characters that slice(0, -5) removes |
| JobModel.CutLastConnective | models/job.js:56 | slice(0, -5) of the accumulated text is "W" with no condition, and "WHERE " plus the rendered conditions otherwise |
| JobModel.FindAll | models/job.js:43-62 | The rows are what the database returns for the SELECT whose filter is exactly the specified filter clause |
| JobModel.RenderedIsJoin | models/job.js:47-56 | Without a title condition the rendering is the plain " AND " join of the conditions |
| JobModel.TitleComesFirst | models/job.js:45-55 | Only the first active condition can be the title's |
| JobModel.RenderedAgainstJoin | models/job.js:47-56 | A leading title condition is followed by " AND  " before the " AND " join of the rest or, when alone, by one space |
| JobModel.FilterClauseIsWhereJoin | models/job.js:44-56 | No active filter gives "W"; otherwise the text starts with "WHERE " followed by the " AND " join of the conditions, with a leading title's extra space |
| JobModel.FilterExampleNone | models/job.js:44-56 | No filters, and minSalary 0 with hasEquity false, give "W" |
| JobModel.FilterExampleSalary | models/job.js:49-56 | minSalary 40 gives "WHERE salary >= 40" |
| JobModel.FilterExampleTitle | models/job.js:46-56 | title "Title 1" gives "WHERE title ILIKE '%Title 1%' " with one trailing space |
| JobModel.FilterExampleSalaryAndEquity | models/job.js:49-56 | minSalary 40 with hasEquity true gives "WHERE salary >= 40 AND equity > 0" |
| JobModel.FirstRow | models/job.js:78 | `result.rows[0]` (also lines 108 and 127): the first row, or undefined when none came back |
| JobModel.NoJob | models/job.js:80 | The NotFoundError thrown at line 80 (and at lines 110 and 129), whose message is "No job: " followed by the id's string form; its status is 404 |
| JobModel.GetQuery | models/job.js:72-76 | The SELECT text of get, with the id as its one parameter |
| JobModel.RemoveQuery | models/job.js:121-126 | The DELETE text of remove, with the id as its one parameter |
| JobModel.UpdateText | models/job.js:103-106 | The UPDATE template of update around setCols and the id placeholder |
| JobModel.UpdateQuery | models/job.js:97-107 | Fails with BadRequestError("No data") exactly when data is empty; otherwise it sends N+1 parameters, the last one the id |
| JobModel.UpdateBindsParameters | models/job.js:98-107 | SET column i is key i itself with placeholder $(i+1) bound to value i; the WHERE placeholder is $(N+1), which reads back as N+1 |
| JobModel.Get | models/job.js:71-83 | Throws NotFoundError("No job: " + id) exactly when the SELECT returns no row; otherwise returns the first row |
| JobModel.Update | models/job.js:97-113 | Empty data fails with BadRequestError("No data"); otherwise it throws NotFoundError exactly when the UPDATE returns no row, and returns the first row |
| JobModel.Remove | models/job.js:120-130 | Throws NotFoundError exactly when the DELETE returns no row; otherwise returns undefined |
| JobModel.JobErrors | models/job.js:71-130 | The errors get, update and remove throw themselves are a 404 NotFoundError naming the id, except for update with no data, which is a 400 BadRequestError whatever the database holds |

## Left out

- `jwt.verify` and `SECRET_KEY` are a function parameter `string -> Option<Claims>`. `None` stands for a throw. Payloads that are not objects are not modelled.
- `db.query` is a function parameter from the query sent to the rows returned. Async/await, connection handling and SQL semantics are not modelled: ILIKE, ORDER BY, RETURNING, and the table alias that the text "W" becomes. A query the database rejects (a missing table, an unknown column or a badly typed id) is not modelled either: its error reaches the caller as a 500.
- `Job.create` is not modelled. It is a single parameterized INSERT with no logic.
- SQL injection and escaping are not modelled. The title and minSalary values are interpolated into the findAll text as their string conversion, and the model does not reason about how SQL parses them.
- Number-to-string conversion covers integers only. Fractions and exponent notation (at and above 1e21) are not modelled, and neither is floating-point equity.
- Objects are modelled as ordered lists of distinct keys. So `Object.keys` putting integer-like keys first is not modelled, and neither are inherited properties: a key such as "constructor" would find a value on the prototype of the `{}` table in JavaScript, but not in the model.
- `Sql.SqlForPartialUpdate` only states alignment with the value list. Read-back of the SET text (`Sql.SetColsReadBack`) requires columns without commas, because the decoder splits at ", ".
- The Express plumbing is not modelled: `next`, the request and response objects, and the route wiring. The routes file is not part of this model, so which gate guards which route is not stated.
- expressError.js is not part of this model. The error classes appear as values with the statuses the routes rely on: BadRequestError 400, UnauthorizedError 401, NotFoundError 404, the literal `{status: 401}` object, and TypeError 500 (the default of the application's error handler, which is not part of this model; no gate lets a TypeError escape).
