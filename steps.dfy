/** The bridge's session state machine as values: what each operation of
    `ServerBridge` does to the identity fields, the assignment and the secret
    store, which request it sends and what it returns. The class in module
    Bridge is proved to perform exactly these steps. */
module Steps {
  import opened Base
  import opened Text
  import opened SecretStore

  /** The name a restored identity takes when no name is stored. */
  const UNNAMED := "Unnamed"
  /** Separates the assignment's name from its id in a 200 body. */
  const ASSIGNMENT_SEP := "+"
  /** Separates the headline from the reason in an upper-cased verify body. */
  const REASON_MARKER := "REASON:"

  /** An HTTP reply, as the transport hands it back. */
  datatype Reply = Reply(status: int, body: string)

  datatype Verb = Get | Post | Put

  /** A request the bridge sends: method, full URL and JSON object fields. */
  datatype Request = Request(verb: Verb, url: string, json: seq<(string, string)>)

  /** The event the kiosk checks passes against (`a_name`, `a_id`). */
  datatype Assignment = Assignment(name: string, id: string)

  /** What `verify` reports: status, headline text and detail text. */
  datatype Verdict = Verdict(status: int, text: string, subtext: string)

  /** The bridge's attributes together with the secret store's entries. */
  datatype Session = Session(
    needInit: bool,
    serverIp: Option<string>,
    kioskToken: Option<string>,
    kioskName: Option<string>,
    assignment: Option<Assignment>,
    store: Store)

  /** One operation's effect: the new session, the returned value, the requests sent. */
  datatype Step<T> = Step(session: Session, result: T, sent: seq<Request>)

  /** The identity is held exactly when `needInit` is false, and an
      assignment is only ever held together with an identity. */
  ghost predicate Valid(s: Session) {
    (s.needInit ==> s.serverIp.None? && s.kioskToken.None? && s.kioskName.None? && s.assignment.None?) &&
    (!s.needInit ==> s.serverIp.Some? && s.kioskToken.Some? && s.kioskName.Some?)
  }

  /** Everything but the assignment is as before. */
  ghost predicate SameIdentity(s: Session, t: Session) {
    t.needInit == s.needInit && t.serverIp == s.serverIp && t.kioskToken == s.kioskToken &&
    t.kioskName == s.kioskName && t.store == s.store
  }

  /** The three store entries an identity occupies. */
  function IdentityKeys(address: string): seq<string> {
    [address, SERVER_KEY, NAME_KEY]
  }

  /** Parses a 200 body `name+id`, splitting at the first `+`; None when the
      body has no `+` (the source then raises). */
  function ParseAssignment(body: string): (a: Option<Assignment>)
    ensures a.Some? <==> Contains(body, ASSIGNMENT_SEP)
    ensures a.Some? ==> a.value.name + ASSIGNMENT_SEP + a.value.id == body
    ensures a.Some? ==> '+' !in a.value.name
  {
    var parts := SplitOnce(body, ASSIGNMENT_SEP);
    if |parts| == 2 then
      assert '+' !in parts[0] by {
        forall j | 0 <= j < |parts[0]| ensures parts[0][j] != '+' {
          assert body[j] == parts[0][j];
          assert !OccursAt(body, ASSIGNMENT_SEP, j);
          assert body[j..j + 1] == [body[j]];
        }
      }
      Some(Assignment(parts[0], parts[1]))
    else None
  }

  /** A body built as `name+id`, with no `+` in the name, parses back to
      that name and id (the id may itself hold `+`). */
  lemma ParseAssignmentRoundTrip(name: string, id: string)
    requires '+' !in name
    ensures ParseAssignment(name + ASSIGNMENT_SEP + id) == Some(Assignment(name, id))
  {
    var s := name + ASSIGNMENT_SEP + id;
    forall j: nat | j < |name| ensures !OccursAt(s, ASSIGNMENT_SEP, j) {
      assert s[j] == name[j];
      assert s[j..j + 1] == [s[j]];
    }
    SplitOnceAt(s, ASSIGNMENT_SEP, name, id);
  }

  /** The result of `verify` for a reply to the verify request. */
  function VerdictOf(reply: Reply): (v: Verdict)
    ensures v.status == reply.status
    ensures reply.status == 200 ==> v.text == "valid"
    ensures reply.status == 200 ==> (v.subtext == "STAFF" <==> Contains(reply.body, "staff"))
    ensures reply.status == 200 ==> (v.subtext == "" <==> !Contains(reply.body, "staff"))
    ensures reply.status != 200 && Contains(Upper(reply.body), REASON_MARKER) ==>
      v.text + REASON_MARKER + v.subtext == Upper(reply.body) && !Contains(v.text, REASON_MARKER)
    ensures reply.status != 200 && !Contains(Upper(reply.body), REASON_MARKER) ==>
      v.text == Upper(reply.body) && v.subtext == ""
    ensures reply.status != 200 ==> NoLower(v.text) && NoLower(v.subtext)
  {
    if reply.status == 200 then
      Verdict(200, "valid", if Contains(reply.body, "staff") then "STAFF" else "")
    else
      var upper := Upper(reply.body);
      var parts := SplitOnce(upper, REASON_MARKER);
      UpperHasNoLower(reply.body);
      if |parts| == 2 then
        NoOccurrenceInPrefix(upper, REASON_MARKER, |parts[0]|);
        assert upper[..|parts[0]|] == parts[0];
        assert NoLower(parts[1]) by {
          assert parts[1] == upper[|parts[0]| + |REASON_MARKER|..];
        }
        Verdict(reply.status, parts[0], parts[1])
      else
        Verdict(reply.status, parts[0], "")
  }

  /** `__init__` up to the assignment fetch: restore the identity from the
      store, or delete the partial entries (a failed deletion is swallowed). */
  function RestoreStep(store: Store): (s: Session)
    ensures Valid(s) && s.assignment.None?
    ensures !s.needInit <==> SERVER_KEY in store && store[SERVER_KEY] in store
    ensures !s.needInit ==>
      s.serverIp == Some(store[SERVER_KEY]) && s.kioskToken == Some(store[store[SERVER_KEY]]) &&
      s.kioskName == Some(if NAME_KEY in store then store[NAME_KEY] else UNNAMED) && s.store == store
    ensures s.needInit ==> SERVER_KEY !in s.store
    ensures s.needInit ==> (NAME_KEY in s.store <==> NAME_KEY in store && SERVER_KEY !in store)
    ensures s.needInit ==> forall k :: k in s.store ==> k in store && s.store[k] == store[k]
    ensures s.needInit ==> forall k :: k in store && k != SERVER_KEY && k != NAME_KEY ==> k in s.store
  {
    var serverIp := Lookup(store, SERVER_KEY);
    var token := if serverIp.Some? then Lookup(store, serverIp.value) else None;
    var name := if serverIp.Some? then Lookup(store, NAME_KEY) else None;
    if token.None? then
      Session(true, None, None, None, None, DeleteEach(store, [SERVER_KEY, NAME_KEY]).store)
    else
      Session(false, serverIp, token, Some(name.GetOr(UNNAMED)), None, store)
  }

  /** `clear_creds`: when an identity is held, delete its three entries in
      order and reset the fields; a deletion that raises stops it, leaving
      the fields as they were and the earlier deletions done. */
  function ClearStep(s: Session): (r: Step<Outcome<()>>)
    requires Valid(s)
    ensures Valid(r.session) && r.sent == []
    ensures s.needInit ==> r.session == s && r.result == Returned(())
    ensures !s.needInit ==> (r.result.Returned? <==> Deletable(s.store, IdentityKeys(s.serverIp.value)))
    ensures !s.needInit && r.result.Returned? ==>
      r.session == Session(true, None, None, None, None, s.store - {s.serverIp.value, SERVER_KEY, NAME_KEY})
    ensures r.result.Raised? ==>
      r.session == s.(store := DeleteEach(s.store, IdentityKeys(s.serverIp.value)).store) &&
      r.result.error.PasswordDeleteError? && r.result.error.key !in r.session.store
  {
    if s.needInit then Step(s, Returned(()), [])
    else
      var d := DeleteEach(s.store, IdentityKeys(s.serverIp.value));
      if d.failedAt.Some? then
        Step(s.(store := d.store), Raised(PasswordDeleteError(d.failedAt.value)), [])
      else
        assert (set k | k in IdentityKeys(s.serverIp.value)) == {s.serverIp.value, SERVER_KEY, NAME_KEY};
        Step(Session(true, None, None, None, None, d.store), Returned(()), [])
  }

  /** `clear_creds` one deletion at a time, in the order the source makes them. */
  lemma ClearStepInOrder(s: Session)
    requires Valid(s) && !s.needInit
    ensures var ip, e := s.serverIp.value, s.store;
      ClearStep(s) ==
        if ip !in e then Step(s, Raised(PasswordDeleteError(ip)), [])
        else if SERVER_KEY !in e - {ip} then Step(s.(store := e - {ip}), Raised(PasswordDeleteError(SERVER_KEY)), [])
        else if NAME_KEY !in e - {ip} - {SERVER_KEY} then
          Step(s.(store := e - {ip} - {SERVER_KEY}), Raised(PasswordDeleteError(NAME_KEY)), [])
        else Step(Session(true, None, None, None, None, e - {ip} - {SERVER_KEY} - {NAME_KEY}), Returned(()), [])
  {
    var ip, e := s.serverIp.value, s.store;
    DeleteEachCons(e, ip, [SERVER_KEY, NAME_KEY]);
    DeleteEachCons(e - {ip}, SERVER_KEY, [NAME_KEY]);
    DeleteEachCons(e - {ip} - {SERVER_KEY}, NAME_KEY, []);
    assert IdentityKeys(ip) == [ip] + [SERVER_KEY, NAME_KEY];
    assert [SERVER_KEY, NAME_KEY] == [SERVER_KEY] + [NAME_KEY];
    assert [NAME_KEY] == [NAME_KEY] + [];
    if ip in e && SERVER_KEY in e - {ip} && NAME_KEY in e - {ip} - {SERVER_KEY} {
      assert e - {ip} - {SERVER_KEY} - {NAME_KEY} == e - {ip, SERVER_KEY, NAME_KEY};
    }
  }

  /** `enroll`: only while no identity is held, POST the code and name; a
      200 reply's body is the token, and address, token and name go to the
      fields and the store. */
  function EnrollStep(s: Session, address: string, code: string, name: string, reply: Reply): (r: Step<()>)
    requires Valid(s)
    ensures Valid(r.session)
    ensures !s.needInit ==> r.session == s && r.sent == []
    ensures s.needInit ==> r.sent == [Request(Post, address + "/enroll", [("code", code), ("name", name)])]
    ensures s.needInit && reply.status == 200 ==>
      !r.session.needInit && r.session.assignment.None? &&
      r.session.serverIp == Some(address) && r.session.kioskToken == Some(reply.body) &&
      r.session.kioskName == Some(name) &&
      r.session.store == s.store[SERVER_KEY := address][address := reply.body][NAME_KEY := name]
    ensures reply.status != 200 ==> r.session == s
  {
    if !s.needInit then Step(s, (), [])
    else
      var request := Request(Post, address + "/enroll", [("code", code), ("name", name)]);
      if reply.status == 200 then
        var store := s.store[SERVER_KEY := address][address := reply.body][NAME_KEY := name];
        Step(Session(false, Some(address), Some(reply.body), Some(name), s.assignment, store), (), [request])
      else
        Step(s, (), [request])
  }

  /** `get_assignment`: only while an identity is held, GET the assignment
      and act on the status; returns Python's True, False or None. */
  function FetchStep(s: Session, reply: Reply): (r: Step<Outcome<Option<bool>>>)
    requires Valid(s)
    ensures Valid(r.session)
    ensures s.needInit ==> r == Step(s, Returned(Some(false)), [])
    ensures !s.needInit ==>
      r.sent == [Request(Get, s.serverIp.value + "/assignment?kioskToken=" + s.kioskToken.value, [])]
    ensures !s.needInit && reply.status == 200 && Contains(reply.body, ASSIGNMENT_SEP) ==>
      r.result == Returned(Some(true)) && SameIdentity(s, r.session) && r.session.assignment.Some? &&
      r.session.assignment.value.name + ASSIGNMENT_SEP + r.session.assignment.value.id == reply.body &&
      '+' !in r.session.assignment.value.name
    ensures !s.needInit && reply.status == 200 && !Contains(reply.body, ASSIGNMENT_SEP) ==>
      r.result == Raised(IndexError) && r.session == s
    ensures !s.needInit && reply.status == 204 ==>
      r.result == Returned(Some(false)) && SameIdentity(s, r.session) && r.session.assignment.None?
    ensures !s.needInit && reply.status in {401, 404, 409} ==>
      var c := ClearStep(s.(assignment := None));
      r.session == c.session && r.result == c.result.WithValue(Some(false)) && r.session.assignment.None?
    ensures reply.status !in {200, 204, 401, 404, 409} ==> r.session == s && r.result.Returned?
    ensures !s.needInit && reply.status !in {200, 204, 401, 404, 409} ==> r.result == Returned(None)
  {
    if s.needInit then Step(s, Returned(Some(false)), [])
    else
      var request := Request(Get, s.serverIp.value + "/assignment?kioskToken=" + s.kioskToken.value, []);
      if reply.status == 200 then
        match ParseAssignment(reply.body)
        case None => Step(s, Raised(IndexError), [request])
        case Some(a) => Step(s.(assignment := Some(a)), Returned(Some(true)), [request])
      else if reply.status == 204 then
        Step(s.(assignment := None), Returned(Some(false)), [request])
      else if reply.status == 401 || reply.status == 404 || reply.status == 409 then
        var c := ClearStep(s.(assignment := None));
        Step(c.session, c.result.WithValue(Some(false)), [request])
      else
        Step(s, Returned(None), [request])
  }

  /** `__init__` as a whole: restore, then fetch the assignment when an
      identity was restored; an exception from the fetch escapes. */
  function OpenStep(store: Store, reply: Reply): (r: Step<Outcome<()>>)
    ensures Valid(r.session)
    ensures RestoreStep(store).needInit ==> r == Step(RestoreStep(store), Returned(()), [])
    ensures !RestoreStep(store).needInit ==>
      var f := FetchStep(RestoreStep(store), reply);
      r == Step(f.session, f.result.WithValue(()), f.sent)
  {
    var restored := RestoreStep(store);
    if restored.needInit then Step(restored, Returned(()), [])
    else
      var f := FetchStep(restored, reply);
      Step(f.session, f.result.WithValue(()), f.sent)
  }

  /** `verify`: only while an assignment is held, GET the verdict for a
      pass token against the assignment's id; never changes the session. */
  function VerifyStep(s: Session, token: string, reply: Reply): (r: Step<Option<Verdict>>)
    requires Valid(s)
    ensures r.session == s
    ensures s.assignment.None? ==> r.result.None? && r.sent == []
    ensures s.assignment.Some? ==>
      r.result == Some(VerdictOf(reply)) &&
      r.sent == [Request(Get, s.serverIp.value + "/verify?token=" + token + "&event=" + s.assignment.value.id, [])]
  {
    if s.assignment.None? then Step(s, None, [])
    else
      var request := Request(Get, s.serverIp.value + "/verify?token=" + token + "&event=" + s.assignment.value.id, []);
      Step(s, Some(VerdictOf(reply)), [request])
  }

  /** `mark_attendance`: only while an assignment is held, PUT the mark;
      a 409 re-fetches the assignment (second reply) and the call reports
      False whatever the re-fetch did, unless the re-fetch raised. */
  function MarkStep(s: Session, token: string, reply: Reply, refetch: Reply): (r: Step<Outcome<bool>>)
    requires Valid(s)
    ensures Valid(r.session)
    ensures r.result == Returned(true) <==> s.assignment.Some? && reply.status == 200
    ensures s.assignment.None? ==> r == Step(s, Returned(false), [])
    ensures s.assignment.Some? ==>
      |r.sent| >= 1 && r.sent[0] == Request(Put, s.serverIp.value + "/mark",
        [("kioskToken", s.kioskToken.value), ("event", s.assignment.value.id), ("token", token)])
    ensures s.assignment.Some? && reply.status == 409 ==>
      var f := FetchStep(s, refetch);
      r.session == f.session && r.result == f.result.WithValue(false) && r.sent[1..] == f.sent
    ensures reply.status != 409 ==> r.session == s && |r.sent| <= 1
    ensures s.assignment.Some? && reply.status != 200 && reply.status != 409 ==> r.result == Returned(false)
  {
    if s.assignment.None? then Step(s, Returned(false), [])
    else
      var request := Request(Put, s.serverIp.value + "/mark",
        [("kioskToken", s.kioskToken.value), ("event", s.assignment.value.id), ("token", token)]);
      if reply.status == 200 then Step(s, Returned(true), [request])
      else if reply.status == 409 then
        var f := FetchStep(s, refetch);
        Step(f.session, f.result.WithValue(false), [request] + f.sent)
      else Step(s, Returned(false), [request])
  }
}
