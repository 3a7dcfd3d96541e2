# Hub dashboard core in Dafny

This project models the logic of a delivery-hub dashboard, written in React and TypeScript. The model covers two parts.

**The two-stage access-change workflow in `App.tsx`.**
- A requester files a `PromotionRequest` that carries a stage-1 code (`SL-…`).
- A shift lead looks the request up by code and verifies it. This issues a stage-2 code (`HL-…`).
- A hub lead looks it up again and approves it.
- After a delay, the change is applied to the user directory: a new role, the role `INACTIVE`, or a photo-change count reset to 0.

**The smaller pieces around the workflow.**
- The photo-change limit, which files a reset request once it is reached.
- The scanned-task set.
- The per-hub package statistics.
- The two role predicates.

**The ingestion transforms of `services/dataService.ts`.**
- `normalizeId`.
- The naive CSV splitter `parseCSV`.
- The row-to-record mappings behind `getTasks`, `getAttendance` and `getAllUsers`, taking already-parsed rows as input.

## Modules

- `wrappers.dfy`, module `Wrappers`: `Option`, which stands for an optional field, a failed `find`, or `NaN`.
- `text.dfy`, module `Text`: the JavaScript string built-ins the code relies on:
  - `trim` (ECMAScript whitespace);
  - `toLowerCase` and `toUpperCase` (ASCII letters);
  - `includes`;
  - `split` with a one-character separator;
  - `replace(/"/g, '')`, `substring`;
  - `parseInt` without a radix;
  - the decimal rendering of a natural number in a template literal.
- `types.dfy`, module `Types`: the enum and the records of `types.ts`. A user's role stays a plain string, because `Role | string` admits `INACTIVE`.
- `data_service.dfy`, module `DataService`:
  - `parseCSV` and the record building are methods with loops, as in the source.
  - `getTasks` is a method that fills a `map` in place, then reads it back in JavaScript's `Object.values` order: array-index keys ascending first, then the other keys in insertion order.
  - The remaining mappings are functions.
- `app.dfy`, module `App`:
  - The pure helpers: role predicates, codes, lookup, the review step, the deferred effect, the limit rule and the statistics.
  - The nested-loop statistics methods.
  - The class `Dashboard`, which holds the React state that the handlers update. Each handler is a method with a field-level `modifies` clause. It states its whole new state, and keeps the invariant `Valid()`: every request is well formed.

Time, randomness and user confirmations enter as parameters:
- `now` stands for `Date.now()`;
- `timestamp` stands for `new Date().toISOString()`;
- `random36` stands for `Math.random().toString(36)`;
- `confirmed` is the answer to `confirm(...)`.

The five-minute timer is explicit:
- `Dashboard.ProcessReview` returns the request the timer captured.
- `Dashboard.FireDeferred` applies it.

### Behaviour of the code

- There is no `Applied` state. `Approved` is written before the deferred effect runs.
- Rejection has no guard. It turns any request `Rejected`, including an `Approved` one.
- The deferred effect uses the request captured at approval time and never re-checks its status. A rejection after the hub lead's approval does not stop it (`App.RejectionAfterApprovalStillApplies`).
- The role checks are exact string equality with `Shift Lead` and `Hub Lead`.
- Nothing prevents self-approval.
- Generated codes are never checked for collisions.
- The lookup matches either code slot. A hub lead can therefore select a `Verified_SL` request by its stage-1 code (`App.HubLeadCanUseStageOneCode`).
- When the typed code is blank or matches nothing, the selected request is left as it was, because the handler returns early.
- The request selected for review is a snapshot. The review writes its outcome over every request with that id.

## Model

| member | source | states |
|---|---|---|
| Types.RoleOf | types.ts:2-11 | a recognised role string is exactly the string of the role it is recognised as |
| Types.RoleNameRoundTrip | types.ts:2-11 | each of the eight roles is recognised from its own string, so the eight strings are distinct |
| Types.InactiveIsNoNamedRole | types.ts:16 | the role string `INACTIVE` that a user may hold is none of the eight named roles |
| Text.Trim | services/dataService.ts:7 | `trim` keeps a contiguous slice, cuts only whitespace, and leaves no whitespace at either end |
| Text.TrimIdempotent | services/dataService.ts:7 | trimming a trimmed string changes nothing |
| Text.TrimEmptyIffAllSpace | services/dataService.ts:29 | `line.trim() !== ''` holds exactly when the line has a non-whitespace character |
| Text.TrimPadded | App.tsx:253 | whitespace around a string with non-space ends is exactly what `trim` removes |
| Text.TrimToUpper | App.tsx:253 | upper-casing commutes with trimming |
| Text.ToUpper | App.tsx:26 | `toUpperCase` keeps the length, maps letter by letter, and leaves no lower-case ASCII letter |
| Text.ToLower | App.tsx:99 | `toLowerCase` keeps the length and maps letter by letter |
| Text.UpperOfLower | App.tsx:253 | a string without lower-case letters comes back from lower-casing by upper-casing |
| Text.Split | services/dataService.ts:25 | `split(c)` yields at least one part, no part holds `c`, there are two or more parts iff `c` occurs, and joining the parts with `c` gives back the input |
| Text.SplitFirst | services/dataService.ts:118 | the first part is the text before the first `c` |
| Text.SplitRest | services/dataService.ts:118 | the parts after the first are the parts of the text after the first `c` |
| Text.SplitJoin | services/dataService.ts:28 | splitting a join of separator-free parts gives back the parts |
| Text.RemoveChar | services/dataService.ts:28 | `replace(/"/g, '')` removes every quote and keeps every other character |
| Text.RemoveCharAppend | services/dataService.ts:28 | removing quotes works stretch by stretch: a quote goes, any other character stays, in order and with its multiplicity |
| Text.Substring | App.tsx:26 | `substring(a, b)` clamps both bounds to the string and swaps them when `a > b` |
| Text.LeadingDigits | services/dataService.ts:109 | the digits `parseInt` reads are the longest digit prefix |
| Text.ParseInt | services/dataService.ts:109 | `parseInt` gives a number only when the text holds a digit; otherwise `NaN` |
| Text.ParseIntParts | services/dataService.ts:109 | leading whitespace is skipped and one `+`/`-` sign is read; the sign is applied to what the unsigned reader gives |
| Text.ParseIntDecimalText | services/dataService.ts:109 | whitespace, a sign, decimal digits and any non-digit tail read as the digits' value with that sign |
| Text.ParseIntHexText | services/dataService.ts:109 | a `0x`/`0X` prefix followed by hex digits reads as their base-16 value with the sign |
| Text.ParseIntNaN | services/dataService.ts:109-110 | text whose first character after whitespace and sign is not a digit reads as `NaN`, so the row is skipped |
| Text.ParseIntHexNaN | services/dataService.ts:109-110 | `0x` with no hex digit after it reads as `NaN` |
| Text.LeadingDigitsOfPrefix | services/dataService.ts:109 | reading stops at the first character that is not a digit |
| Text.ParseIntDecimal | services/dataService.ts:170 | `parseInt` reads back every decimal rendering of a natural number |
| Text.Decimal | services/dataService.ts:153 | a decimal rendering is a non-empty digit string with no leading zero |
| Text.DecimalValue | services/dataService.ts:153 | the digits of a decimal rendering have the rendered value |
| Text.DecimalInjective | services/dataService.ts:153 | different numbers render differently |
| Text.LeadingDigitsOfDigits | services/dataService.ts:109 | a digit string is its own longest digit prefix |
| DataService.GroupEndAt | services/dataService.ts:8 | a `[digits]` group starting at a given index is found, or none exists there |
| DataService.FindGroup | services/dataService.ts:8 | the first `[digits]` group from a position is found, no earlier one exists, or none at all |
| DataService.NormalizeId | services/dataService.ts:5-10 | `""` for a missing id; otherwise the digits of the first `[digits]` group of the trimmed id, or the trimmed id when it has no such group |
| DataService.NormalizeIdOfClean | services/dataService.ts:7-9 | an id that is its own trim and holds no group normalises to itself |
| DataService.DigitsAreClean | services/dataService.ts:8-9 | a digit string has no surrounding whitespace and no bracketed group |
| DataService.NormalizeIdIdempotent | services/dataService.ts:5-10 | normalising a normalised id changes nothing |
| DataService.CleanField | services/dataService.ts:28 | a cleaned header or value holds no `"`, holds every other character of the trimmed text and no other, and is the trimmed text when that holds no quote |
| DataService.CleanQuoted | services/dataService.ts:28 | a quoted cell with whitespace around it cleans to exactly the text between the quotes |
| DataService.NonBlank | services/dataService.ts:29 | at most as many lines survive the blank-line filter as were given, and none of them is blank |
| DataService.NonBlankAppend | services/dataService.ts:29 | the filter works stretch by stretch, so the kept lines stay in order with their multiplicity |
| DataService.NonBlankSingle | services/dataService.ts:29 | a single line is kept exactly when it is not blank |
| DataService.NonBlankMembers | services/dataService.ts:29 | a line survives the filter exactly when it is given and not blank |
| DataService.Lines | services/dataService.ts:25-26 | splitting on newlines always yields at least the header line |
| DataService.BuildRecord | services/dataService.ts:31-34 | the record's keys are exactly the headers; each header maps to the value in its column (its last column when repeated), or `""` past the end of the line |
| DataService.RecordStep | services/dataService.ts:32-34 | assigning the next header's value extends the record by that header, overriding an earlier column of the same name |
| DataService.ParseRecord | services/dataService.ts:30-36 | one line becomes its cleaned values and the record built from them, `_raw` overriding a header of that name |
| DataService.ParseRecords | services/dataService.ts:29-37 | one record per non-blank line, in order, each built from that line's cleaned values |
| DataService.ParseCsv | services/dataService.ts:24-37 | one record per non-blank line after the header, keyed by the cleaned header names |
| DataService.RecordWithoutRaw | services/dataService.ts:32-35 | apart from `_raw`, a built record maps each header as the column rule says |
| DataService.PickFirstTruthy | services/dataService.ts:109 | an `a \|\| b \|\| … \|\| d` chain yields the first truthy option, or the fallback when none is truthy |
| DataService.OperatorName | services/dataService.ts:118 | a value without `]` is kept; otherwise the trimmed text between the first `]` and the next `]` (or the end) |
| DataService.OperatorNameTagged | services/dataService.ts:118 | a `[id] Name` operator reads as the trimmed name |
| DataService.HubDefault | services/dataService.ts:113 | a row with no hub column filled is at `Tompobulu Hub` |
| DataService.CourierNameDefault | services/dataService.ts:114 | a row with no courier-name column filled belongs to `Unknown` |
| DataService.ExtractTask | services/dataService.ts:108-136 | a row is skipped iff its package count is `NaN` or not positive, or its task id is empty; an accepted task is unscanned, has a positive count and a non-empty id, takes its courier id, name, hub and delivery date from their columns and its operator from the operator column or `Hub Staff`, and is keyed by the normalised id, or by the courier name when that id is empty |
| DataService.FindCourier | services/dataService.ts:122 | the courier found is the first that matches the id or the name, and none matches when none is found |
| DataService.TaskStream | services/dataService.ts:108 | each row contributes what its extraction gives, in row order |
| DataService.TaskStreamValid | services/dataService.ts:110-119 | every extracted task has a positive count and a non-empty id |
| DataService.AppearanceOrder | services/dataService.ts:121 | group keys are listed once each, in order of first appearance |
| DataService.AppearanceOrderKeys | services/dataService.ts:120-121 | a key is listed exactly when some accepted row feeds it |
| DataService.FirstFor | services/dataService.ts:121-131 | a key's first feeding row exists exactly when the key is listed |
| DataService.AppearanceOrderStep | services/dataService.ts:121-131 | one more row adds its key at the end when the key is new, and otherwise leaves the order as it is |
| DataService.GroupStep | services/dataService.ts:121-136 | one more row leaves other groups unchanged, appends its task and adds its count to its own group, and opens the group when the key is new |
| DataService.TasksForUnfed | services/dataService.ts:121-136 | a key no row feeds has no tasks |
| DataService.TasksForValid | services/dataService.ts:133-136 | every task of a group has a positive count and a non-empty id |
| DataService.InsertByValue | services/dataService.ts:138 | inserting an array-index key adds exactly that key, one occurrence more, to the keys |
| DataService.InsertByValueSorted | services/dataService.ts:138 | inserting an array-index key into keys sorted by numeric value keeps them sorted |
| DataService.KeysWhere | services/dataService.ts:138 | the keys kept are exactly those of the requested kind (array index or not) |
| DataService.SortIndexKeys | services/dataService.ts:138 | array-index keys come out sorted by value, as a permutation of the input |
| DataService.KeysWhereSplit | services/dataService.ts:138 | the index keys and the other keys together are the inserted keys |
| DataService.ObjectKeysOrder | services/dataService.ts:138 | `Object.values` visits each inserted key once: index keys ascending, then the other keys in insertion order |
| DataService.ObjectKeysFromInsertion | services/dataService.ts:138 | the visiting order has one entry per inserted key, and each entry was inserted |
| DataService.ObjectValues | services/dataService.ts:138 | one value per key, read at that key in visiting order |
| DataService.GroupStream | services/dataService.ts:107-137 | after the `forEach`, the dictionary has one group per key fed by an accepted row, inserted in order of first appearance, each equal to its specification |
| DataService.GetTasks | services/dataService.ts:105-139 | one group per key, in `Object.values` order; each carries its first row's courier and hub and all its tasks in row order |
| DataService.GroupsConsistent | services/dataService.ts:127-136 | each group's `totalPackages` is the sum of its tasks' package counts, and every task is valid |
| DataService.FindStaff | services/dataService.ts:151 | the staff member found is the first that matches the name ignoring case, or the id; none matches when none is found |
| DataService.RoleOfMatch | services/dataService.ts:154 | the role is the matched staff member's when that is non-empty, and `Operator` otherwise |
| DataService.AttendanceDefaults | services/dataService.ts:144-149 | a row with nothing filled has no ops id, is `Unnamed Staff`, at location `-`, on shift `-`, with no remarks |
| DataService.GetAttendance | services/dataService.ts:141-157 | one record per row with id `att-i`; its ops id, name, shift, location and remarks come from that row's columns; the status is `Hadir` iff the trimmed raw status lower-cases to `hadir`, and `Off` otherwise; the role is that of the first staff member matching the name ignoring case or the ops id, or `Operator` |
| DataService.AttendanceIdsDistinct | services/dataService.ts:153 | attendance ids of different rows differ |
| DataService.DropPlaceholders | services/dataService.ts:171 | exactly the couriers that are not the defaulted `Courier`/`Courier` entry are kept |
| DataService.DropPlaceholdersAppend | services/dataService.ts:171 | the filter works stretch by stretch, so the kept couriers stay in order with their multiplicity |
| DataService.DropPlaceholdersSingle | services/dataService.ts:171 | a single courier is kept exactly when it is not the placeholder |
| DataService.DefaultIdNormal | services/dataService.ts:163-173 | the default ids `C000` and `S000` normalise to themselves |
| DataService.CourierIdOf | services/dataService.ts:163 | the courier id is `C000` when no id column is filled, and the normalised `UserID` when that is filled |
| DataService.CourierNameColumn | services/dataService.ts:164 | the courier name is never empty: `Nama Lengkap` when filled, `Courier` when no name column is |
| DataService.CourierOfRow | services/dataService.ts:162-170 | a courier's role, station, password and NIK are their columns or `Courier`, `Tompobulu`, `123456`, `1234567890`; its id, name, avatar and photo count come from their columns |
| DataService.StaffIdOf | services/dataService.ts:173 | the staff id is `S000` when no id column is filled, and the normalised `UserID` when that is filled |
| DataService.StaffNameColumn | services/dataService.ts:174 | the staff name is never empty: `Nama Lengkap` when filled, `Staff` when no name column is |
| DataService.StaffRoleColumn | services/dataService.ts:175 | the staff role is `Jabatan`, else `Role`, else `Operator`, and never empty |
| DataService.StaffOfRow | services/dataService.ts:172-181 | a staff member's station, password and NIK are their columns or `Tompobulu`, `admin123`, `0987654321`; its id, name, role, avatar and photo count come from their columns |
| DataService.EmptyCourierRowDropped | services/dataService.ts:164-171 | a courier row with no name column and no `Jabatan` filled becomes the placeholder and is not among the returned couriers |
| DataService.CourierUsers | services/dataService.ts:162-170 | one courier per row, in order, each read from its row as `CourierOfRow` states |
| DataService.StaffUsers | services/dataService.ts:172-181 | one staff member per row, in order, each read from its row as `StaffOfRow` states |
| DataService.GetAllUsers | services/dataService.ts:159-183 | the kept couriers followed by all staff: the tail is exactly the staff, and the head is exactly the filtered couriers, in sheet order |
| App.MissingChar | App.tsx:98-101 | a keyword with a character the role string lacks is not included in it |
| App.CourierRoles | App.tsx:98-101 | of the eight named roles, exactly `Courier`, `Courier Dedicated`, `Courier Plus` and `Mitra` pass `checkIsCourier` |
| App.ManagementRoles | App.tsx:332-335 | of the eight named roles, exactly `Shift Lead`, `Hub Lead` and `Admin Tracer` pass `isManagementAllowed` |
| App.InactiveHasNoAccess | App.tsx:285-287 | a user set to `INACTIVE` passes neither role predicate |
| App.GenerateUniqueCode | App.tsx:26 | a code is its prefix and a dash, followed by at most six characters |
| App.StagesDisjoint | App.tsx:26 | no code is both a stage-1 (`SL-`) and a stage-2 (`HL-`) code |
| App.GeneratedCodeCanonical | App.tsx:26 | a generated code is non-empty, has no surrounding whitespace and no lower-case letter |
| App.FirstWithCode | App.tsx:254 | the first request holding the code in either slot, none before it holding it; nothing only when no request holds it |
| App.BlankInputFindsNothing | App.tsx:252 | whitespace-only input selects nothing |
| App.LookupIgnoresCaseAndPadding | App.tsx:251-258 | a code typed in any letter case, with any surrounding whitespace, selects what the code itself selects |
| App.LowerCaseCodeIsFound | App.tsx:253-254 | a stored code typed in lower case with stray spaces still selects a request |
| App.FirstWithCodeAt | App.tsx:254 | the request at `i` is selected when it holds the code and none before it does |
| App.CodeSlotsDisjoint | App.tsx:254 | in well-formed requests a stage-1 code never equals a stage-2 code |
| App.Dashboard.StageCodesDistinct | App.tsx:254 | on a valid dashboard no request's stage-1 code is another request's stage-2 code |
| App.ReviewOf | App.tsx:260-304 | approval moves `Pending` to `Verified_SL` with the new `HL-` code only for `Shift Lead`, and `Verified_SL` to `Approved` only for `Hub Lead`, handing the request as selected to the timer; every other approval writes nothing; rejection always writes `Rejected`; only status and stage-2 code ever change |
| App.ReviewKeepsWellFormed | App.tsx:266-276 | a review of a well-formed request writes back a well-formed request |
| App.HubLeadCanUseStageOneCode | App.tsx:251-276 | a `Verified_SL` request is selected by its stage-1 code and a hub lead then approves it |
| App.ReplaceById | App.tsx:269 | the id-matching `map` keeps the length and order, replaces the records with that id, and keeps all others |
| App.ReplaceByIdProperties | App.tsx:275 | replacing keeps every position's id, changes nothing when no record has the id, and is idempotent |
| App.ReplaceKeepsWellFormed | App.tsx:298 | replacing with a well-formed request keeps a well-formed list well-formed |
| App.ApplyChange | App.tsx:282-291 | `ResetPhotoLimit` sets the photo count to 0, `RemoveAccess` sets the role to `INACTIVE`, any other type sets the role to the proposed one; nothing else changes |
| App.ApplyDeferred | App.tsx:281-293 | the subject (every user with the request's employee id) changes as above; no other user changes |
| App.DeferredIgnoresStatus | App.tsx:281-293 | the deferred effect is the same whatever the captured request's status |
| App.RemovedUserLosesAccess | App.tsx:285-287 | a removed user ends `INACTIVE` and passes neither role predicate |
| App.RejectionAfterApprovalStillApplies | App.tsx:272-298 | after the hub lead approves, a rejection leaves the request `Rejected`, yet the timer still applies the approved change |
| App.SubmissionOf | App.tsx:306-316 | refused iff the type needs a target and none is chosen; otherwise a `Pending` request with the given `SL-` code and no stage-2 code, proposing the current role for `ResetPhotoLimit`/`RemoveAccess` and the chosen role otherwise |
| App.SubmissionWellFormed | App.tsx:310-314 | a submitted request is well formed |
| App.RequestIdsDistinct | App.tsx:312 | submissions at different instants get different ids, never equal to a photo-reset request's id |
| App.PhotoDecision | App.tsx:178-202 | a user who is not an admin tracer and is at 5 or more is refused; otherwise the count becomes `count + 1` (at most 5), or stays as it is for an admin tracer |
| App.ChangesGrantedUpToLimit | App.tsx:184-202 | from a count `c`, consecutive attempts are granted exactly up to `5 - c` changes |
| App.FindUser | App.tsx:178 | the user found is the first with the id, and none has it when none is found |
| App.ResetRequestOf | App.tsx:186-190 | the limit request is a `Pending` `ResetPhotoLimit` for the subject's id and name, with its current role as both current and proposed role (blank without a subject), carrying the `SL-` code and no stage-2 code |
| App.UsersWithPhoto | App.tsx:212 | the user with the id gets the new picture and count; no other user changes |
| App.Toggled | App.tsx:451 | the toggled id's membership flips; every other id's stays |
| App.ToggleTwice | App.tsx:451 | toggling twice restores the set |
| App.HubTasks | App.tsx:220 | a group is kept exactly when its hub matches by name or by the first word of the hub name |
| App.HubTasksAppend | App.tsx:220 | the filter works stretch by stretch, so the kept groups stay in order with their multiplicity |
| App.HubTasksSingle | App.tsx:220 | a single group is kept exactly when its hub matches |
| App.AllTasksMembers | App.tsx:222 | a task is counted exactly when it belongs to one of the hub's groups |
| App.ScannedOnly | App.tsx:224 | there are never more scanned tasks than tasks |
| App.ScannedOnlyMembers | App.tsx:224 | a task is kept exactly when it is given and its id is in the scanned set |
| App.ScannedOnlyAppend | App.tsx:224 | the selection works stretch by stretch, so the kept tasks stay in order with their multiplicity |
| App.ScannedOnlySingle | App.tsx:224 | a single task is kept exactly when its id is scanned |
| App.CountStep | App.tsx:223-224 | one more task adds its packages to the total, and to the scanned total when its id is scanned |
| App.ScannedPackagesBounded | App.tsx:222-225 | with no negative counts, scanned packages lie between 0 and the total |
| App.StatsConsistent | App.tsx:221-226 | `scannedPackages <= totalPackages`, `unscannedPackages` and `pendingTasks` are the differences and are never negative |
| App.TaskGroupsStatsConsistent | App.tsx:217-228 | for groups produced by `getTasks` the statistics are consistent without further assumptions |
| App.AddTasks | App.tsx:222-225 | the inner loop adds a group's tasks to the four running sums |
| App.HubStat | App.tsx:219-227 | the nested loops compute the hub's totals, scanned totals and differences |
| App.DashboardStats | App.tsx:217-228 | one statistics record per target hub, in order |
| App.Dashboard.constructor | App.tsx:44-67 | the initial state: no requests, no selection, empty scanned set and avatar map; it is valid |
| App.Dashboard.HandleCodeVerification | App.tsx:251-258 | a match is selected and the input is cleared; blank input or no match changes nothing; validity is kept |
| App.Dashboard.ProcessReview | App.tsx:260-304 | without a selection or a user nothing changes; otherwise the review is written over every request with the id, the selection is cleared, and the timer gets the request exactly when a hub lead approves; validity is kept |
| App.Dashboard.FireDeferred | App.tsx:281-293 | the user directory becomes the deferred effect of the captured request |
| App.Dashboard.HandlePromotionSubmission | App.tsx:306-320 | nothing changes without a selection, a user and a type, or when refused; otherwise exactly one request is appended and the selection, type and search are cleared; validity is kept |
| App.Dashboard.HandleAvatarChange | App.tsx:177-215 | at the limit, only a reset request is appended, and only when confirmed by a signed-in user; otherwise the picture is stored, the id is marked, and the count is updated in the directory and for the signed-in user; validity is kept |
| App.Dashboard.ToggleScan | App.tsx:451 | the scanned set becomes its toggle |
| App.Dashboard.Stats | App.tsx:217-228 | the memo's value over the current task groups and scanned set |

## Left out

- Network I/O is not modelled. `fetchCSV`, `updateUserInSpreadsheet`, `logActivityToSpreadsheet` and `updateTaskStatusInSpreadsheet` are boundary calls and are treated as no-ops.
- `getTasks`, `getAttendance` and `getAllUsers` take already-parsed rows instead of fetching them.
- Browser state is not modelled: `localStorage`, session restore, the inactivity timeout and login.
- JSX rendering, alerts, the `isVerifying` flag and the UI components are not modelled.
- The five-minute `setTimeout` is an explicit fire step, not time. The `async`/`await` interleavings are not modelled.
- The `FileReader` callback in `handleAvatarChange` runs at once: the model has no interleaving between the limit check and the update.
- `Math.random`, `Date.now()` and `new Date()` are parameters, not computed.
- Floating point is not modelled: the progress percentage (`Math.round`), paper dimensions and card scaling.
- App.HubStats: the `progress` field is left out because it is floating point.
- Text.ToUpper: only ASCII letters are mapped; the full Unicode case mapping of `toUpperCase` is left out.
- Text.ToLower: only ASCII letters are mapped; the full Unicode case mapping of `toLowerCase` is left out.
- Text.ParseInt: JavaScript numbers are unbounded here. Precision loss beyond 2^53 is not modelled.
- DataService.GetTasks: the groups are a Dafny `map` with no inherited keys. In the code `grouped` is a plain object, so a group key that names an `Object.prototype` property (for example a courier named `constructor` with an empty FMS ID) makes `!grouped[groupId]` false; the push at line 133 then throws and `getTasks` rejects, where the model opens a normal group.
- DataService.ParseCsv: parsed rows are strings only. Object keys inherited from the prototype and the string conversion of non-string cells are not modelled.
- The filtered views of `App.tsx` (`filteredTasks`, `filteredEmployees`, the print selection) are not part of this model. They are presentation filters.
