# Kiosk server bridge, modelled in Dafny

This project models `ServerBridge` from `bridge.py`, the client-side state
machine of a ticket-scanning kiosk. The bridge holds the kiosk's identity
(`need_init`, `server_ip`, `kiosk_token`, `kiosk_name`) and its current
assignment. It keeps the identity in a durable keyring under the service
`mp.ticketing.service`, and it talks to the ticketing server over HTTP.
Its operations are:

- restoring the identity when the object is constructed;
- `clear_creds`;
- `enroll`;
- `get_assignment`;
- `verify`;
- `mark_attendance`.

The model has six modules:

- `Base` (`base.dfy`): `Option`, and `Outcome`. An `Outcome` is what a Python
  call did: it returned a value, or it raised `PasswordDeleteError` or
  `IndexError`.
- `Text` (`text.dfy`): the string helpers the bridge uses. These are
  first-occurrence search, `str.split(sep, 1)`, the `in` substring test and
  ASCII `str.upper()`.
- `SecretStore` (`secret_store.dfy`): the keyring's entries as a
  `map<string, string>`, and the three keys `mp.server`, `<address>` and
  `mp.kiosk.name`. `DeleteEach` is a run of `delete_password` calls that stops
  at the first key that holds nothing. `Keyring` is the keyring object itself.
  It lives outside the bridge, so its entries outlive a bridge whose
  construction raised.
- `Steps` (`steps.dfy`): each operation as a function on a `Session` value.
  A `Session` is the bridge's attributes plus the keyring's entries. Each
  function gives the new session, the returned value and the requests sent.
  `Valid` is the invariant: the identity fields are all set exactly when
  `need_init` is false, and an assignment is held only with an identity.
- `Properties` (`properties.dfy`): lemmas that relate several operations.
- `Bridge` (`bridge.dfy`): the class `ServerBridge`. Its fields mirror the
  Python attributes, and its methods update them in place and call the
  keyring. Each method is proved to do exactly what its `Steps` function does,
  and to keep `Valid`.

Each HTTP reply the bridge would receive is a parameter `Reply(status, body)`.
`MarkAttendance` takes a second reply, for the assignment fetch that a 409
triggers. Each request the bridge sends is returned as a
`Request(verb, url, json)`, so "no request is made" is part of each contract.

In these places the code's behaviour is easy to misread; the model follows the
code:

- `clear_creds` does not catch keyring deletion errors (bridge.py:51-53). When
  an entry is missing, the exception escapes from it, and also from the
  `get_assignment` or constructor that called it. The earlier deletions stay
  done and the identity fields keep their values. `ClearAfterUnnamedRestoreRaises`
  and `RevokeAtStartupWithoutName` show one case. An identity restored without
  a stored name gets `'Unnamed'`, and tearing it down then raises at
  `mp.kiosk.name`.
- `enroll` while initialized returns without doing anything. It does not clear
  the identity first.
- A 200 assignment body without `+` raises `IndexError` before `assignment`
  changes. It is not treated as "no assignment".
- An assignment status outside 200/204/401/404/409 makes `get_assignment`
  return Python's `None`. The model returns `Returned(None)` and changes
  nothing.
- `'staff' in response.text` is case-sensitive.
- The reason marker is matched on the upper-cased body. The detail text is
  everything after `REASON:`, including the space that usually follows it
  (`ReasonSplitExample`).

The keyring's `delete_password` is modelled as raising `PasswordDeleteError`
when the key holds nothing. That is the keyring library's documented behaviour,
and the restore path's own `try`/`except` around its deletions relies on it.

## Model

| member | source | states |
|---|---|---|
| `Text.Contains` | bridge.py:145 | `pat in s` holds exactly when `pat` occurs at some index of `s` |
| `Text.SplitOnce` | bridge.py:153 | `split(sep, 1)` gives one part (the whole string) exactly when `sep` is absent; otherwise two parts whose join with `sep` is the input, split at the first occurrence |
| `Text.SplitOnceAt` | bridge.py:105 | any `a + sep + b` with no earlier occurrence of `sep` splits into exactly `[a, b]`, so the split is unique |
| `Text.NoOccurrenceInPrefix` | bridge.py:153 | the part before the first occurrence holds no occurrence of the separator |
| `Text.Upper` | bridge.py:153 | ASCII `a`–`z` become `A`–`Z` (code point minus 32); every other character and the length are kept |
| `Text.UpperHasNoLower` | bridge.py:153 | upper-casing leaves no lower-case ASCII letter |
| `Text.UpperKeepsOccurrence` | bridge.py:153 | a piece that upper-cases to the marker is found at the same index of the upper-cased body, so the marker matches in any letter case |
| `SecretStore.Lookup` | bridge.py:23-26 | `get_password` gives the stored secret when the key is present and None otherwise |
| `SecretStore.DeleteEach` | bridge.py:51-53 | deleting keys in order succeeds exactly when all keys are present and distinct, and then removes exactly those keys; otherwise the key that raised is absent; entries are only ever removed, never changed, and keys not named survive |
| `SecretStore.DeleteEachStopsAtFirstMissing` | bridge.py:51-53 | when every key before `key` was present and distinct, and `key` is absent once they are deleted, the run raises at `key` with the store lacking exactly the earlier keys; later keys are never touched |
| `SecretStore.Keyring.GetPassword` | bridge.py:23 | returns what the store holds under the key, None when nothing |
| `SecretStore.Keyring.SetPassword` | bridge.py:82-84 | the key holds the new secret; nothing else changes |
| `SecretStore.Keyring.DeletePassword` | bridge.py:30 | a present key is removed; a missing key raises `PasswordDeleteError` and changes nothing |
| `Steps.ParseAssignment` | bridge.py:104-110 | a 200 body parses exactly when it holds `+`; then name + `+` + id is the body and the name holds no `+` |
| `Steps.ParseAssignmentRoundTrip` | bridge.py:105-110 | `name+id` with no `+` in the name parses back to that name and id, even when the id holds `+` |
| `Steps.VerdictOf` | bridge.py:144-159 | status is the reply's; on 200 text is `valid` and subtext is `STAFF` iff the body contains `staff`, else empty; otherwise text + `REASON:` + subtext is the upper-cased body when the marker is present (and the text holds no marker), text is the whole upper-cased body and subtext empty when absent, and neither holds a lower-case letter |
| `Steps.RestoreStep` | bridge.py:15-43 | need_init is false iff `mp.server` is stored and its value is itself a stored key; then the identity is that address, its token, and the stored name or `Unnamed`, with no assignment and the store untouched; otherwise `mp.server` is gone from the store, `mp.kiosk.name` survives only when `mp.server` was absent, nothing else is removed, and the invariant holds |
| `Steps.ClearStep` | bridge.py:47-59 | no-op when uninitialized; otherwise completes iff the three keys are present and distinct, and then removes exactly them and resets identity and assignment; a raise leaves the fields and names a key now absent; keeps the invariant |
| `Steps.ClearStepInOrder` | bridge.py:51-53 | the teardown deletes `<address>`, then `mp.server`, then `mp.kiosk.name`, stopping at the first that raises |
| `Steps.EnrollStep` | bridge.py:61-84 | when initialized nothing changes and no request is sent; otherwise it POSTs code and name to `<address>/enroll`, and on 200 stores address, the body as token and name in fields and under `mp.server`, `<address>`, `mp.kiosk.name`; any other status changes nothing |
| `Steps.FetchStep` | bridge.py:97-122 | uninitialized: False, no request; 200: assignment is the split of the body at its first `+`, identity kept, True (IndexError and no change when no `+`); 204: assignment dropped, identity kept, False; 401/404/409: assignment dropped then the full `clear_creds` step; other: nothing changes, None; keeps the invariant |
| `Steps.OpenStep` | bridge.py:15-45 | construction is the restore, followed by the assignment fetch only when an identity was restored; an exception from the fetch escapes |
| `Steps.VerifyStep` | bridge.py:133-159 | no assignment: None and no request; otherwise the verdict of the reply, for a GET carrying the token and the assignment id; the session never changes |
| `Steps.MarkStep` | bridge.py:167-187 | returns True iff an assignment is held and the mark got 200; no assignment: False, no request; 409: exactly the `get_assignment` step for the second reply, reporting False unless that step raised; any other status: nothing changes |
| `Properties.RestoreFailureIsStable` | bridge.py:28-33 | after a failed restore, restoring again fails the same way and leaves the store as it is |
| `Properties.RestartAfterEnroll` | bridge.py:76-84 | restoring the store written by a successful enrolment gives back exactly the enrolled session (address not one of the two fixed keys) |
| `Properties.RestartAfterClear` | bridge.py:47-59 | after a completed teardown the next start needs enrolment |
| `Properties.ClearCredsIdempotent` | bridge.py:50 | a second `clear_creds` after a completed one changes nothing |
| `Properties.ClearCompletesIffEntriesPresent` | bridge.py:50-53 | the teardown completes exactly when the address, `mp.server` and `mp.kiosk.name` are distinct keys all in the store |
| `Properties.ClearAfterUnnamedRestoreRaises` | bridge.py:40-53 | an identity restored without a stored name is `Unnamed`, and tearing it down raises at `mp.kiosk.name` after deleting the token and `mp.server`, leaving need_init false |
| `Properties.RevokeAtStartupWithoutName` | bridge.py:15-59 | a 401 on the startup fetch of such a kiosk escapes construction as `PasswordDeleteError` with the store left empty |
| `Properties.ConflictTearsDown` | bridge.py:118-122 | 401, 404 or 409 on the fetch of a kiosk whose entries are all stored removes the identity and assignment from fields and store and returns False |
| `Properties.FetchExample` | bridge.py:103-112 | the 200 body `Finals+evt42` gives assignment name `Finals`, id `evt42` |
| `Properties.MarkConflictThenNoAssignment` | bridge.py:182-184 | a 409 on the mark followed by 204 on the re-fetch drops the assignment, keeps identity and store, sends two requests and returns False |
| `Properties.ReasonMarkerInAnyCase` | bridge.py:153-157 | a marker written `Reason:` or in any other case splits the verdict: text + `REASON:` + subtext is the upper-cased body |
| `Properties.ReasonSplitExample` | bridge.py:150-159 | 403 with `Pass used. Reason: duplicate scan` gives text `PASS USED. ` and subtext ` DUPLICATE SCAN` |
| `Bridge.ServerBridge.Restore` | bridge.py:15-43 | the constructed fields and the keyring equal the restore step of the keyring's old entries; the invariant holds |
| `Bridge.ServerBridge.Open` | bridge.py:15-45 | a fresh bridge whose state, outcome and requests are those of the construction step; the keyring keeps what it was left holding |
| `Bridge.ServerBridge.ClearCreds` | bridge.py:47-59 | fields and keyring become the `clear_creds` step of the old state; the invariant is kept |
| `Bridge.ServerBridge.Enroll` | bridge.py:61-84 | fields, keyring and requests are the enrol step of the old state |
| `Bridge.ServerBridge.GetAssignment` | bridge.py:86-122 | fields, keyring, result and requests are the fetch step of the old state |
| `Bridge.ServerBridge.Verify` | bridge.py:124-159 | result and request are the verify step's; it modifies nothing |
| `Bridge.ServerBridge.MarkAttendance` | bridge.py:161-187 | fields, keyring, result and requests are the mark step of the old state, including the nested fetch on 409 |

## Left out

- The `keyring` and `requests` libraries are not part of this model. The keyring is a map of the entries under `mp.ticketing.service`, and other services' entries are not represented. HTTP replies are parameters.
- Transport failures (connection errors, timeouts) are not modelled, because the source does not handle them.
- `set_password` is modelled as never failing. The source does not guard it.
- A Python attribute that was never assigned (`server_ip` after a failed restore) is modelled as `None`.
- JSON bodies are modelled as lists of field pairs, and the enrolment `code` as a string. The caller passes an integer there, and JSON encoding is not part of this model.
- `Text.Upper`: only ASCII letters are upper-cased. Python's Unicode case mapping (which can change a string's length) is not part of this model.
- The `!ALL!` assignment id is not modelled: refusing marks against it is the server's job. The bridge treats it like any other id.
- The Tkinter frames, `window.py`, `main.py` and `utils/__init__.py` are not part of this model. They hold UI, camera, QR decoding and Windows calls. That includes the button gating on `verify`'s result and `controls_frame.py` setting `need_init` to false by hand.
- `frames/__init__.py` `generate_font` and `frames/pass_type.py` `PassType` are not part of this model. They are a tuple builder and an enum with no behaviour to verify.
