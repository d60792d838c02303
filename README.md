# sobremesa — the selection workflow, modelled in Dafny

A convocante proposes a *sobremesa* (a small-group meeting) with a capacity.
Other users each submit one *carta de intención*. The convocante accepts or
rejects cartas. Every convocante and every accepted author gets an entry in
an append-only participation ledger, and a user's "mis sobremesas" listing
and role are derived from that ledger. This project models:

- the server handlers for cartas, sobremesas and the profile update;
- the Mongoose schemas behind them;
- the rules of the four client pages that exist nowhere else.

Each row of the table under "## Model" names the contract proved for one handler, schema rule or page rule.

Layout, one module per file:

- `outcomes.dfy` (`Outcomes`): `Option`, `Result` and the `Failure` each handler answers with, plus the failure's HTTP status.
- `models.dfy` (`Models`): the sobremesa, carta, participation and user records, the status and role enums, their defaults and their required fields.
- `words.dfy` (`Words`): `trim()` and `split(/\s+/)` over a fixed whitespace set. The displayed count is proved equal to a reference count of maximal non-whitespace runs. The submitted count equals it on every text holding a non-space character, and is 1 on an empty or all-whitespace text.
- `seqs.dfy` (`Seqs`): order-preserving filter, first-match search and a descending sort, standing in for the store's `find`, `findOne` and `sort`.
- `store.dfy` (`Store`): the class `Db` holds users, the three collections in insertion order, the ledger and an id counter. Its invariant `Consistent` says:
  - ids are unique and drawn from the counter;
  - every carta and ledger entry refers to a stored sobremesa;
  - there is one carta per (sobremesa, user);
  - no convocante has a carta in their own sobremesa;
  - every convocante and every accepted author has their ledger entry;
  - required fields are non-empty.

  Lemmas show each mutation keeps the invariant.
- `carta_routes.dfy` (`CartaRoutes`): submit, list, decide and check.
- `sobremesa_routes.dfy` (`SobremesaRoutes`): cartelera, get-by-id, create, mis-sobremesas, the status update and the meeting-link update.
- `user_routes.dfy` (`UserRoutes`): the profile partial update and its merge rule.
- `nueva_form.dfy`, `seleccion_panel.dfy`, `mis_sobremesas_page.dfy` and `detalle_page.dfy`: the client rules of the new-sobremesa form, the convocante's selection page, the "mis sobremesas" page and the detail page.

State changes are methods on `Db`. Each method's postcondition gives the
whole new state in terms of the old one and keeps `Db.Valid()`. Read-only
handlers and client helpers are functions. The authenticated requester is
a user-id parameter. The clock reading a new document is stamped with is
the parameter `now`. New document ids come from the counter `Db.nextId`.

Where the code does something other than what a reader of the API might expect (a 409 for a conflict, a 403 for a refusal, a status-transition rule, a date check on the server), the model follows the code:

- submit answers 400, not 409 or 403, for a closed sobremesa, for the convocante applying and for a duplicate carta;
- the server's create has no capacity-range or future-date check;
- decide checks the status value before any lookup and does not check that the carta is still pending, so accepting a carta twice appends a second ledger entry (`Store.DecisionCountsEntries`);
- a status update with a value outside the enum fails schema validation on save, so the handler answers 500 and stores nothing.

## Model

| member | source | states |
|---|---|---|
| Outcomes.HttpStatus | server/src/routes/CartaIntencion.ts:15-111 | Not-found failures answer 404, not-your-resource failures 403, the schema refusal and the broken join 500, and every other guard 400 |
| Outcomes.SobremesaFailureCodes | server/src/routes/Sobremesa.ts:23-152 | The sobremesa handlers answer 400 for a missing field, 404 for an unknown sobremesa, 403 for a non-convocante, and 500 for the refused status and the broken join |
| Outcomes.ProfileFailureCodes | server/src/routes/User.ts:8-38 | The profile update answers 403 for another user's profile and 404 for an unknown user |
| Models.ParseSobremesaStatus | server/src/models/Sobremesa.ts:19-23 | Exactly the four enum names parse, each to the status stored under that name; any other string is refused |
| Models.ParseCartaStatus | server/src/models/CartaIntencion.ts:21-25 | Exactly pending, accepted and rejected parse, each to its own status; any other string is refused |
| Models.StatusNamesRoundTrip | common/src/Sobremesa.ts:8 | The stored name of every sobremesa status and every carta status parses back to that status |
| Models.ProfileOf | server/src/routes/CartaIntencion.ts:78-81 | A joined author carries the user's id, name, context, photo and, when selected, bio, never the email or password, and is present exactly when the user exists |
| Words.Trim | server/src/routes/CartaIntencion.ts:20 | The trimmed text is the run of the text that follows its leading whitespace, with only whitespace after it; it is empty iff the text is all whitespace, and otherwise starts and ends with a non-space character |
| Words.Split | server/src/routes/CartaIntencion.ts:20 | Splitting on whitespace runs yields at least one token, none holding whitespace; only the first and last can be empty, and the first is not when the text starts with a non-space character |
| Words.SubmitWordCountIsWords | server/src/routes/CartaIntencion.ts:20 | The submit count equals the number of maximal non-whitespace runs, except that an all-whitespace text counts 1 |
| Words.DisplayWordCountIsWords | client/src/pages/sobremesa-detalle/index.tsx:152-154 | The displayed count, which drops empty tokens, equals the number of maximal non-whitespace runs |
| Words.WordCountsAgree | client/src/pages/sobremesa-detalle/index.tsx:100-154 | The submit and display counts agree on every text with a word; whitespace-only text submits as 1 and displays as 0 |
| Words.SplitOfTrimmed | server/src/routes/CartaIntencion.ts:20 | Splitting a trimmed non-empty text yields one non-empty token per word |
| Seqs.Filter | server/src/routes/CartaIntencion.ts:78 | The filtered sequence holds exactly the elements that satisfy the predicate, each from the input, and no more copies than the input |
| Seqs.FilterAppend | client/src/pages/mis-sobremesas/index.tsx:85-92 | Filtering a concatenation is the concatenation of the filtered parts, so filtering keeps input order |
| Seqs.SortDesc | server/src/routes/Sobremesa.ts:14 | The result is ordered by descending key and is a permutation of the input |
| Store.FindCartaFor | server/src/routes/CartaIntencion.ts:42 | The lookup of a (sobremesa, user) carta fails exactly when no such carta is stored |
| Store.Db.constructor | server/src/index.ts:26-42 | An empty store with valid users satisfies the invariant |
| Store.AppendCartaKeepsConsistent | server/src/routes/CartaIntencion.ts:47-54 | Inserting a pending carta that passed the submit guards keeps one carta per pair and every other invariant |
| Store.AppendSobremesaKeepsConsistent | server/src/routes/Sobremesa.ts:50-68 | Inserting a sobremesa with its convocante entry keeps the invariant |
| Store.DecideKeepsConsistent | server/src/routes/CartaIntencion.ts:114-125 | Setting a carta's decision, with a participant entry appended on acceptance, keeps the invariant |
| Store.DecisionCountsEntries | server/src/routes/CartaIntencion.ts:114-125 | Each acceptance adds exactly one participant entry for the carta's pair, even when the carta was already accepted; a rejection adds none |
| Store.ReplaceSobremesaKeepsConsistent | server/src/routes/Sobremesa.ts:119-146 | Replacing a sobremesa by one with the same id and convocante keeps the invariant |
| CartaRoutes.SubmitGuard | server/src/routes/CartaIntencion.ts:15-45 | The guards run in order: fields, word window (inclusive 50..500), existence, proposed status, not the convocante, no earlier carta. Each failure is reported iff every earlier guard passed and its own fails; submit passes exactly when all hold |
| CartaRoutes.SubmitCarta | server/src/routes/CartaIntencion.ts:11-60 | On failure the store is unchanged. On success exactly one pending carta with the given sobremesa, author and text is appended, and the invariant (one carta per pair) still holds |
| CartaRoutes.ListCartas | server/src/routes/CartaIntencion.ts:63-87 | 404 iff the sobremesa is absent, 403 iff the requester is not its convocante; succeeds iff the sobremesa exists and the requester is its convocante, with one view per carta of that sobremesa, whatever its status |
| CartaRoutes.ParseDecision | server/src/routes/CartaIntencion.ts:94-96 | Only accepted and rejected are admitted as decisions, never pending |
| CartaRoutes.DecideGuard | server/src/routes/CartaIntencion.ts:94-112 | Invalid status (400), missing carta (404), missing sobremesa (404) and non-convocante (403) fail in that order; the decision passes iff the requester is the carta's convocante |
| CartaRoutes.DecideCarta | server/src/routes/CartaIntencion.ts:90-131 | On failure cartas and ledger are unchanged. On success only the carta's status changes; acceptance appends one participant entry and rejection leaves the ledger as it was |
| CartaRoutes.CheckCarta | server/src/routes/CartaIntencion.ts:134-144 | has_carta holds iff the requester has a carta for the sobremesa, and then that carta is returned |
| CartaRoutes.CheckReturnsTheCarta | server/src/routes/CartaIntencion.ts:139-140 | With one carta per pair, the check returns the requester's only carta |
| CartaRoutes.ConvocanteNeverSubmits | server/src/routes/CartaIntencion.ts:32-39 | The convocante of a sobremesa can never submit a carta to it |
| SobremesaRoutes.CarteleraOrder | server/src/routes/Sobremesa.ts:12-14 | The cartelera's sobremesas are a permutation of the proposed ones, most recently created first |
| SobremesaRoutes.Cartelera | server/src/routes/Sobremesa.ts:10-20 | Exactly the proposed sobremesas, one item each, by created_at descending, each with its convocante's profile without bio |
| SobremesaRoutes.GetSobremesa | server/src/routes/Sobremesa.ts:23-38 | 404 iff no sobremesa has the id; otherwise that sobremesa with its convocante's profile including bio |
| SobremesaRoutes.CreateFieldsMissing | server/src/routes/Sobremesa.ts:45 | A field is missing when title or description is empty, or the date or capacity is absent or the capacity is 0 |
| SobremesaRoutes.AnyNonzeroCapacityPasses | server/src/routes/Sobremesa.ts:45 | With the other fields present, the check passes iff a capacity is given and it is not 0, so negative and oversized capacities pass |
| SobremesaRoutes.CreateSobremesa | server/src/routes/Sobremesa.ts:41-74 | 400 with nothing stored iff a field is missing, including capacity 0. Otherwise it stores one proposed sobremesa whose convocante is the requester, and exactly one convocante ledger entry |
| SobremesaRoutes.MyEntries | server/src/routes/Sobremesa.ts:81-89 | A permutation of the requester's ledger entries, by created_at descending |
| SobremesaRoutes.JoinEntries | server/src/routes/Sobremesa.ts:91-94 | One item per entry, carrying the entry's sobremesa and role; fails iff some entry's sobremesa is gone |
| SobremesaRoutes.MisSobremesas | server/src/routes/Sobremesa.ts:77-100 | Fails, with the broken-join 500, iff some entry of the requester names a missing sobremesa. Otherwise one item per ledger entry of the requester, in the entries' order, each carrying the stored sobremesa of that entry, my_role equal to the entry's role, and its convocante's profile without bio |
| SobremesaRoutes.MisSobremesasSucceeds | server/src/routes/Sobremesa.ts:91-94 | Under the store invariant the join never fails |
| SobremesaRoutes.RoleDerivedFromLedger | server/src/routes/Sobremesa.ts:77-100 | The listing shows a sobremesa with a role iff the ledger holds an entry for that sobremesa, requester and role |
| SobremesaRoutes.OwnedSobremesa | server/src/routes/Sobremesa.ts:108-117 | 404 iff the sobremesa is absent, 403 iff the requester is not its convocante; succeeds iff it exists and the requester is its convocante, giving its position |
| SobremesaRoutes.UpdateStatus | server/src/routes/Sobremesa.ts:103-126 | Succeeds iff the requester owns the sobremesa and the value is in the enum. After 404 and 403, any enum value is stored with no transition rule and no other field changes; a value outside the enum is never stored |
| SobremesaRoutes.UpdateMeetingLink | server/src/routes/Sobremesa.ts:129-152 | After 404 and 403, the link is stored as given and the convocante and every other field are untouched |
| UserRoutes.Merge | server/src/routes/User.ts:18-22 | Name and context are overwritten only by a non-empty value; bio and photo whenever present. Identity and credentials are never touched, and a valid record stays valid |
| UserRoutes.Apply | server/src/routes/User.ts:24-28 | Writing an update never changes id, email, password or googleId |
| UserRoutes.MergeIdempotent | server/src/routes/User.ts:18-27 | Applying the same request twice gives the same record as applying it once |
| UserRoutes.EmptyNameKeepsName | server/src/routes/User.ts:19 | An empty name in the request never erases the stored name |
| UserRoutes.EmptyContextKeepsContext | server/src/routes/User.ts:20 | An empty context in the request never erases the stored context |
| UserRoutes.EmptyBioClearsBio | server/src/routes/User.ts:21 | An empty bio in the request is written, clearing the stored bio |
| UserRoutes.EmptyPhotoClearsPhoto | server/src/routes/User.ts:22 | An empty photo in the request is written, clearing the stored photo |
| UserRoutes.UpdateProfile | server/src/routes/User.ts:8-38 | 403 iff the requester is not the profile's owner, checked before the lookup; 404 iff the user is unknown; succeeds iff the requester is the existing owner, and then only that user's record changes, to the merge |
| NuevaForm.ValidateNueva | client/src/pages/sobremesa-nueva/index.tsx:28-66 | Fields, then capacity in 4..15 inclusive, then the date not before now, with the first failure reported. The body sent carries the parsed capacity and no status |
| NuevaForm.SentFormPassesServerCheck | client/src/pages/sobremesa-nueva/index.tsx:32-65 | A request the form sends passes the server's required-fields check, with capacity in range and date not past |
| NuevaForm.DateAtNowAccepted | client/src/pages/sobremesa-nueva/index.tsx:43-47 | A date equal to now passes |
| SeleccionPanel.CountsPartition | client/src/pages/sobremesa-seleccionar/index.tsx:119-125 | The pending, accepted and rejected counts add up to the number of cartas |
| SeleccionPanel.SpotsLeft | client/src/pages/sobremesa-seleccionar/index.tsx:180-182 | Spots left plus accepted equals the capacity, taken as 0 before the sobremesa loads; there is no clamping |
| SeleccionPanel.SpotsLeftCanBeNegative | client/src/pages/sobremesa-seleccionar/index.tsx:180-182 | Accepting past the capacity makes spots left negative |
| SeleccionPanel.ShowFullWarning | client/src/pages/sobremesa-seleccionar/index.tsx:257 | The full-capacity warning shows when no spot is left and some carta is pending |
| SeleccionPanel.FullWarningMeansCapacityMet | client/src/pages/sobremesa-seleccionar/index.tsx:257 | The warning shows iff the accepted count equals the capacity and some carta is pending |
| SeleccionPanel.ShowsDecisionActions | client/src/pages/sobremesa-seleccionar/index.tsx:323 | Accept and reject are offered only on a pending carta |
| SeleccionPanel.Relabel | client/src/pages/sobremesa-seleccionar/index.tsx:108-112 | Only cartas with the decided id change, and only their status |
| SeleccionPanel.LocalDecision | client/src/pages/sobremesa-seleccionar/index.tsx:92-117 | A failed request changes nothing. A successful one keeps length and order, changes only the matching carta's status, and removes its accept and reject actions |
| SeleccionPanel.RelabelMovesCount | client/src/pages/sobremesa-seleccionar/index.tsx:106-125 | Relabelling the one carta with an id moves it from its old status's count to the new status's count |
| SeleccionPanel.LocalAcceptShiftsCounts | client/src/pages/sobremesa-seleccionar/index.tsx:106-125 | Accepting a pending carta raises accepted by one, lowers pending by one, keeps rejected, and takes one spot |
| SeleccionPanel.LocalRejectKeepsSpots | client/src/pages/sobremesa-seleccionar/index.tsx:106-125 | Rejecting a pending carta lowers pending by one and keeps accepted and spots left |
| MisSobremesasPage.Upcoming | client/src/pages/mis-sobremesas/index.tsx:86-88 | An item is upcoming iff its date is not before now and it is not cancelled; the group holds nothing the listing does not, and nothing more often |
| MisSobremesasPage.Past | client/src/pages/mis-sobremesas/index.tsx:89-91 | An item is past iff its date is strictly before now or it is completed; the group holds nothing the listing does not, and nothing more often |
| MisSobremesasPage.IsPast | client/src/pages/mis-sobremesas/index.tsx:58-61 | A date is past when it is strictly before now; a date equal to now is not past |
| MisSobremesasPage.GroupsKeepOrder | client/src/pages/mis-sobremesas/index.tsx:85-92 | Both groups keep the listing order |
| MisSobremesasPage.GroupsOverlapAndGaps | client/src/pages/mis-sobremesas/index.tsx:58-92 | A completed future item is in both groups and a cancelled future item in neither; any other item is in exactly one |
| MisSobremesasPage.StatusLabel | client/src/pages/mis-sobremesas/index.tsx:75-83 | Each known status shows its Spanish label; an unknown status string is shown unchanged |
| MisSobremesasPage.LabelsDistinct | client/src/pages/mis-sobremesas/index.tsx:76-81 | The four labels are distinct, and a status's name shows that status's label |
| MisSobremesasPage.OffersGestionar | client/src/pages/mis-sobremesas/index.tsx:131-202 | "Gestionar" shows iff the item's date is not past, its role is convocante and the sobremesa is still proposed |
| MisSobremesasPage.GestionarOnlyUpcoming | client/src/pages/mis-sobremesas/index.tsx:84-268 | An item offering "Gestionar" is in the upcoming group and not the past one, and within the upcoming group the offer is exactly the convocante-and-proposed condition |
| MisSobremesasPage.GestionarNeedsConvocanteEntry | client/src/pages/mis-sobremesas/index.tsx:137-202 | On the server's listing, "Gestionar" is offered only where the ledger records the requester as convocante of that sobremesa |
| DetallePage.CartaFormCheck | client/src/pages/sobremesa-detalle/index.tsx:100-108 | Too few words below 50, too many above 500, otherwise passes, exactly as the server's word window |
| DetallePage.FormAgreesWithServer | client/src/pages/sobremesa-detalle/index.tsx:100-108 | The form's check passes iff the server's word check passes, and it classes an empty text as too few words; on the page the required textarea stops an empty submit before this check runs |
| DetallePage.FromServer | server/src/routes/CartaIntencion.ts:139-140 | The page's copy of the check keeps has_carta, the text, and the status as its stored name |
| DetallePage.StatusBanner | client/src/pages/sobremesa-detalle/index.tsx:180-215 | One distinct banner each for pending, accepted and rejected; none with no carta or an unknown status |
| DetallePage.ShowCartaForm | client/src/pages/sobremesa-detalle/index.tsx:252 | The carta form shows unless a check has come back saying the user has a carta |
| DetallePage.FormAndBannerExclusive | client/src/pages/sobremesa-detalle/index.tsx:252 | The carta form and a status banner never show together |
| DetallePage.ServerCheckDrivesPage | client/src/pages/sobremesa-detalle/index.tsx:180-252 | For a server check, the form shows iff the user has no carta, and otherwise the banner matches that carta's status |

## Left out

- Token issuing and verification, password hashing and external sign-in: the requester is a trusted user-id parameter.
- The HTTP layer and the store's own failures, such as connection errors, cast errors on malformed ids, dates or numbers, and the 500s they cause. Only the 500s the handlers' own logic reaches are modelled: the schema refusal of a status and the broken join.
- Concurrency: requests run one after another. The race between the duplicate-carta check and the insert, and the non-atomic sobremesa + ledger writes, are not modelled.
- Whitespace is the six ASCII characters space, tab, newline, carriage return, vertical tab and form feed. The Unicode spaces of JavaScript's `\s` and `trim()` are not modelled.
- `parseInt` and NaN, and parsing dates from strings: the form takes the parsed capacity and the instant its date and time denote, as integers. A NaN capacity is not modelled.
- `updated_at` timestamps: no handler reads them.
- Sort order among equal `created_at` values: the store leaves it unspecified, and the model proves only order and permutation.
- JSON `null` request fields: a field is either absent (None) or a string.
- SobremesaRoutes.UpdateStatus: a request with no status field at all is not modelled; the status parameter is always a string.
- MisSobremesasPage.StatusLabel: looking up a JavaScript prototype key such as `constructor` in the label record is not modelled; every unknown string is shown unchanged.
- React state, fetching, navigation and rendering on the client pages: only the pure rules are modelled. The conditions that decide what a page shows are kept as predicates: `OffersGestionar`, `ShowsDecisionActions`, `ShowFullWarning` and `ShowCartaForm`.
- The signup, login and landing pages and the register handler: they hold no selection logic.
