/** Properties that relate several operations of the session state machine:
    restarts after enrolment and teardown, teardown by the server, and the
    re-fetch after a conflicting mark. */
module Properties {
  import opened Base
  import opened Text
  import opened SecretStore
  import opened Steps

  /** A restore that failed leaves no server address behind, so restoring
      the store it left fails again and changes nothing more. */
  lemma RestoreFailureIsStable(store: Store)
    requires RestoreStep(store).needInit
    ensures RestoreStep(RestoreStep(store).store) == RestoreStep(store)
  {
  }

  /** Enrolment followed by a restart: restoring the store `enroll` wrote
      gives back exactly the enrolled session, provided the address is not
      itself one of the two well-known keys. */
  lemma RestartAfterEnroll(s: Session, address: string, code: string, name: string, reply: Reply)
    requires Valid(s) && s.needInit && reply.status == 200
    requires address != SERVER_KEY && address != NAME_KEY
    ensures var e := EnrollStep(s, address, code, name, reply).session;
      !e.needInit && RestoreStep(e.store) == e
  {
  }

  /** A teardown that completed leaves nothing to restore: the next start
      needs enrolment again. */
  lemma RestartAfterClear(s: Session)
    requires Valid(s) && !s.needInit && ClearStep(s).result.Returned?
    ensures RestoreStep(ClearStep(s).session.store).needInit
  {
  }

  /** A second `clear_creds` after one that completed changes nothing. */
  lemma ClearCredsIdempotent(s: Session)
    requires Valid(s) && ClearStep(s).result.Returned?
    ensures ClearStep(ClearStep(s).session) == Step(ClearStep(s).session, Returned(()), [])
  {
  }

  /** The teardown completes exactly when the address, `mp.server` and
      `mp.kiosk.name` are three distinct keys all present in the store. */
  lemma ClearCompletesIffEntriesPresent(s: Session)
    requires Valid(s) && !s.needInit
    ensures ClearStep(s).result.Returned? <==>
      s.serverIp.value in s.store && SERVER_KEY in s.store && NAME_KEY in s.store &&
      s.serverIp.value != SERVER_KEY && s.serverIp.value != NAME_KEY
  {
    var keys := IdentityKeys(s.serverIp.value);
    if Deletable(s.store, keys) {
      assert keys[0] in s.store && keys[1] in s.store && keys[2] in s.store;
      assert keys[0] != keys[1] && keys[0] != keys[2];
    }
  }

  /** An identity restored without a stored name carries "Unnamed", but
      `clear_creds` on it raises at `mp.kiosk.name` after deleting the token
      and the address, keeping the identity fields. */
  lemma ClearAfterUnnamedRestoreRaises(store: Store)
    requires !RestoreStep(store).needInit
    requires NAME_KEY !in store && store[SERVER_KEY] != SERVER_KEY
    ensures var r := RestoreStep(store);
      r.kioskName == Some(UNNAMED) &&
      ClearStep(r).result == Raised(PasswordDeleteError(NAME_KEY)) &&
      !ClearStep(r).session.needInit &&
      ClearStep(r).session.store == store - {store[SERVER_KEY], SERVER_KEY}
  {
    var r := RestoreStep(store);
    var keys := IdentityKeys(store[SERVER_KEY]);
    assert DeleteEach(store, keys) == DeleteEach(store - {keys[0]}, keys[1..]);
    assert keys[1..] == [SERVER_KEY, NAME_KEY];
    assert DeleteEach(store - {keys[0]}, keys[1..]) == DeleteEach(store - {keys[0]} - {SERVER_KEY}, [NAME_KEY]);
  }

  /** The same, as the server revoking a restored, unnamed kiosk: the 401
      escapes `__init__` as an exception and the store is left empty. */
  lemma RevokeAtStartupWithoutName()
    ensures var store := map[SERVER_KEY := "https://tickets.example", "https://tickets.example" := "T0K"];
      OpenStep(store, Reply(401, "")) ==
        Step(Session(false, Some("https://tickets.example"), Some("T0K"), Some(UNNAMED), None, map[]),
             Raised(PasswordDeleteError(NAME_KEY)),
             [Request(Get, "https://tickets.example/assignment?kioskToken=T0K", [])])
  {
    var address := "https://tickets.example";
    var store := map[SERVER_KEY := address, address := "T0K"];
    assert address != SERVER_KEY && NAME_KEY !in store;
    ClearAfterUnnamedRestoreRaises(store);
    var r := RestoreStep(store);
    assert r == Session(false, Some(address), Some("T0K"), Some(UNNAMED), None, store);
    assert r.(assignment := None) == r;
    assert store - {address, SERVER_KEY} == map[];
    assert address + "/assignment?kioskToken=" + "T0K" == "https://tickets.example/assignment?kioskToken=T0K";
  }

  /** 401, 404 or 409 on the assignment fetch of a kiosk whose three entries
      are in the store: the whole identity and the assignment are gone, from
      the fields and from the store. */
  lemma ConflictTearsDown(s: Session, reply: Reply)
    requires Valid(s) && !s.needInit && reply.status in {401, 404, 409}
    requires Deletable(s.store, IdentityKeys(s.serverIp.value))
    ensures FetchStep(s, reply) ==
      Step(Session(true, None, None, None, None, s.store - {s.serverIp.value, SERVER_KEY, NAME_KEY}),
           Returned(Some(false)),
           [Request(Get, s.serverIp.value + "/assignment?kioskToken=" + s.kioskToken.value, [])])
  {
  }

  /** A 200 assignment reply `Finals+evt42` yields the assignment named
      "Finals" with id "evt42". */
  lemma FetchExample(s: Session)
    requires Valid(s) && !s.needInit
    ensures FetchStep(s, Reply(200, "Finals+evt42")).session.assignment == Some(Assignment("Finals", "evt42"))
  {
    ParseAssignmentRoundTrip("Finals", "evt42");
    assert "Finals" + ASSIGNMENT_SEP + "evt42" == "Finals+evt42";
  }

  /** A mark that conflicts, followed by a re-fetch that finds no current
      assignment: the assignment is dropped, the identity and the store are
      kept, and the mark reports False. */
  lemma MarkConflictThenNoAssignment(s: Session, token: string, refetch: Reply)
    requires Valid(s) && s.assignment.Some? && refetch.status == 204
    ensures var r := MarkStep(s, token, Reply(409, ""), refetch);
      r.session == s.(assignment := None) && r.result == Returned(false) && |r.sent| == 2
  {
  }

  /** A reason marker written in any letter case is found in the verify
      body: the reply's upper-cased body is headline, marker and detail. */
  lemma ReasonMarkerInAnyCase(reply: Reply, piece: string, j: nat)
    requires reply.status != 200
    requires OccursAt(reply.body, piece, j) && Upper(piece) == REASON_MARKER
    ensures VerdictOf(reply).text + REASON_MARKER + VerdictOf(reply).subtext == Upper(reply.body)
  {
    UpperKeepsOccurrence(reply.body, piece, REASON_MARKER, j);
  }

  /** A 403 with body "Pass used. Reason: duplicate scan": headline and
      detail are upper-cased, and the detail keeps the space that followed
      the marker. */
  lemma ReasonSplitExample()
    ensures VerdictOf(Reply(403, "Pass used. Reason: duplicate scan")) ==
      Verdict(403, "PASS USED. ", " DUPLICATE SCAN")
  {
    var head, tail := "PASS USED. ", " DUPLICATE SCAN";
    var upper := head + REASON_MARKER + tail;
    assert Upper("Pass used. Reason: duplicate scan") == upper;
    assert upper[..|head|] == head;
    NoOccurrenceWithoutFirstChar(upper, REASON_MARKER, |head|);
    SplitOnceAt(upper, REASON_MARKER, head, tail);
  }
}
