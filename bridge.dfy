/** `ServerBridge`: the kiosk's enrolment and session object. Its fields are
    the Python attributes; the keyring is a separate object it reads and
    writes; each HTTP reply the bridge would receive is a parameter. Every
    method is proved to perform exactly the matching step of module Steps. */
module Bridge {
  import opened Base
  import opened Text
  import opened SecretStore
  import opened Steps

  class ServerBridge {
    const keyring: Keyring
    var needInit: bool
    var serverIp: Option<string>
    var kioskToken: Option<string>
    var kioskName: Option<string>
    var assignment: Option<Assignment>

    /** The bridge's attributes and the keyring's entries, as a value. */
    ghost function Snapshot(): Session
      reads this, keyring
    {
      Session(needInit, serverIp, kioskToken, kioskName, assignment, keyring.entries)
    }

    ghost predicate Valid()
      reads this, keyring
    {
      Steps.Valid(Snapshot())
    }

    /** `__init__` up to the assignment fetch: restore the identity from the
        keyring, or delete the partial entries, swallowing a failed deletion. */
    constructor Restore(keyring: Keyring)
      modifies keyring
      ensures this.keyring == keyring
      ensures Snapshot() == RestoreStep(old(keyring.entries))
      ensures Valid()
    {
      this.keyring := keyring;
      needInit := true;
      assignment := None;
      serverIp, kioskToken, kioskName := None, None, None;
      var token: Option<string> := None;
      var name: Option<string> := None;
      var ip := keyring.GetPassword(SERVER_KEY);
      if ip.Some? {
        token := keyring.GetPassword(ip.value);
        name := keyring.GetPassword(NAME_KEY);
      }
      if token.None? {
        var deleted := keyring.DeletePassword(SERVER_KEY);
        if deleted.Returned? {
          deleted := keyring.DeletePassword(NAME_KEY);
        }
        assert [SERVER_KEY, NAME_KEY][1..] == [NAME_KEY];
      } else {
        needInit := false;
        serverIp := ip;
        kioskToken := token;
        kioskName := Some(if name.None? then UNNAMED else name.value);
      }
    }

    /** `ServerBridge()`: restore, then fetch the assignment with `reply`
        when an identity was restored. When `outcome` is Raised, Python never
        hands the object out; only what the keyring was left holding remains. */
    static method Open(keyring: Keyring, reply: Reply) returns (b: ServerBridge, outcome: Outcome<()>, sent: seq<Request>)
      modifies keyring
      ensures fresh(b) && b.keyring == keyring && b.Valid()
      ensures var r := OpenStep(old(keyring.entries), reply);
        b.Snapshot() == r.session && outcome == r.result && sent == r.sent
    {
      b := new ServerBridge.Restore(keyring);
      outcome, sent := Returned(()), [];
      if !b.needInit {
        var fetched;
        fetched, sent := b.GetAssignment(reply);
        outcome := fetched.WithValue(());
      }
    }

    /** `clear_creds`. */
    method ClearCreds() returns (outcome: Outcome<()>)
      requires Valid()
      modifies this, keyring
      ensures Valid()
      ensures Snapshot() == ClearStep(old(Snapshot())).session
      ensures outcome == ClearStep(old(Snapshot())).result
    {
      outcome := Returned(());
      if !needInit {
        ClearStepInOrder(Snapshot());
        outcome := keyring.DeletePassword(serverIp.value);
        if outcome.Raised? { return; }
        outcome := keyring.DeletePassword(SERVER_KEY);
        if outcome.Raised? { return; }
        outcome := keyring.DeletePassword(NAME_KEY);
        if outcome.Raised? { return; }
        serverIp, kioskToken, kioskName := None, None, None;
        assignment := None;
        needInit := true;
      }
    }

    /** `enroll`: `reply` answers the POST to `<address>/enroll`. */
    method Enroll(address: string, code: string, name: string, reply: Reply) returns (sent: seq<Request>)
      requires Valid()
      modifies this, keyring
      ensures Valid()
      ensures var r := EnrollStep(old(Snapshot()), address, code, name, reply);
        Snapshot() == r.session && sent == r.sent
    {
      if !needInit {
        return [];
      }
      sent := [Request(Post, address + "/enroll", [("code", code), ("name", name)])];
      if reply.status == 200 {
        serverIp := Some(address);
        kioskName := Some(name);
        kioskToken := Some(reply.body);
        needInit := false;
        keyring.SetPassword(SERVER_KEY, address);
        keyring.SetPassword(address, reply.body);
        keyring.SetPassword(NAME_KEY, name);
      }
    }

    /** `get_assignment`: `reply` answers the GET of the assignment. */
    method GetAssignment(reply: Reply) returns (outcome: Outcome<Option<bool>>, sent: seq<Request>)
      requires Valid()
      modifies this, keyring
      ensures Valid()
      ensures var r := FetchStep(old(Snapshot()), reply);
        Snapshot() == r.session && outcome == r.result && sent == r.sent
    {
      if needInit {
        return Returned(Some(false)), [];
      }
      sent := [Request(Get, serverIp.value + "/assignment?kioskToken=" + kioskToken.value, [])];
      if reply.status == 200 {
        var parts := SplitOnce(reply.body, ASSIGNMENT_SEP);
        if |parts| < 2 {
          return Raised(IndexError), sent;
        }
        assignment := Some(Assignment(parts[0], parts[1]));
        outcome := Returned(Some(true));
      } else if reply.status == 204 {
        assignment := None;
        outcome := Returned(Some(false));
      } else if reply.status == 401 || reply.status == 404 || reply.status == 409 {
        assignment := None;
        var cleared := ClearCreds();
        outcome := cleared.WithValue(Some(false));
      } else {
        outcome := Returned(None);
      }
    }

    /** `verify`: `reply` answers the GET of the pass's verdict. */
    method Verify(token: string, reply: Reply) returns (result: Option<Verdict>, sent: seq<Request>)
      requires Valid()
      ensures var r := VerifyStep(Snapshot(), token, reply);
        result == r.result && sent == r.sent
    {
      if assignment.None? {
        return None, [];
      }
      sent := [Request(Get, serverIp.value + "/verify?token=" + token + "&event=" + assignment.value.id, [])];
      var verdict := Verdict(200, "valid", "");
      if reply.status == 200 {
        if Contains(reply.body, "staff") {
          verdict := verdict.(subtext := "STAFF");
        }
      } else {
        verdict := verdict.(status := reply.status);
        var parts := SplitOnce(Upper(reply.body), REASON_MARKER);
        verdict := verdict.(text := parts[0]);
        if |parts| > 1 {
          verdict := verdict.(subtext := parts[1]);
        }
      }
      result := Some(verdict);
    }

    /** `mark_attendance`: `reply` answers the PUT of the mark, `refetch` the
        assignment GET that a 409 triggers. */
    method MarkAttendance(token: string, reply: Reply, refetch: Reply) returns (outcome: Outcome<bool>, sent: seq<Request>)
      requires Valid()
      modifies this, keyring
      ensures Valid()
      ensures var r := MarkStep(old(Snapshot()), token, reply, refetch);
        Snapshot() == r.session && outcome == r.result && sent == r.sent
    {
      if assignment.None? {
        return Returned(false), [];
      }
      sent := [Request(Put, serverIp.value + "/mark",
        [("kioskToken", kioskToken.value), ("event", assignment.value.id), ("token", token)])];
      if reply.status == 200 {
        outcome := Returned(true);
      } else if reply.status == 409 {
        var fetched, refetchSent := GetAssignment(refetch);
        outcome := fetched.WithValue(false);
        sent := sent + refetchSent;
      } else {
        outcome := Returned(false);
      }
    }
  }
}
