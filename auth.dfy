/** Sessions: reading the token out of the `Authorization` header, resolving it to
    a user (`CheckLogin`) and to an administrator (`CheckPermission`). */
module Auth {
  import opened Tables

  // ---------------------------------------------------------------------------
  // The Authorization header

  /** Go's `strings.Split(s, " ")`: the pieces between single spaces, empty pieces kept. */
  function Split(s: string): (fields: seq<string>)
    ensures |fields| >= 1
    ensures forall i :: 0 <= i < |fields| ==> ' ' !in fields[i]
    ensures |fields| == 1 <==> ' ' !in s
    decreases |s|
  {
    if |s| == 0 then [""]
    else
      var rest := Split(s[1..]);
      assert s == [s[0]] + s[1..];
      if s[0] == ' ' then [""] + rest
      else [[s[0]] + rest[0]] + rest[1..]
  }

  /** Go's `strings.Join(fields, " ")`. */
  function Join(fields: seq<string>): string
    requires |fields| >= 1
    decreases |fields|
  {
    if |fields| == 1 then fields[0] else fields[0] + " " + Join(fields[1..])
  }

  /** Splitting loses nothing: joining the pieces gives the header back. */
  lemma {:induction false} JoinSplit(s: string)
    ensures Join(Split(s)) == s
    decreases |s|
  {
    if |s| > 0 {
      var rest := Split(s[1..]);
      JoinSplit(s[1..]);
      if s[0] == ' ' {
        JoinAfterEmpty(rest);
      } else {
        JoinExtendFirst(s[0], rest);
      }
      assert s == [s[0]] + s[1..];
    }
  }

  lemma {:induction false} JoinAfterEmpty(rest: seq<string>)
    requires |rest| >= 1
    ensures Join([""] + rest) == " " + Join(rest)
  {
    assert ([""] + rest)[1..] == rest;
  }

  lemma {:induction false} JoinExtendFirst(c: char, rest: seq<string>)
    requires |rest| >= 1
    ensures Join([[c] + rest[0]] + rest[1..]) == [c] + Join(rest)
  {
    var fields := [[c] + rest[0]] + rest[1..];
    assert fields[0] == [c] + rest[0];
    if |rest| > 1 {
      assert fields[1..] == rest[1..];
      var tail := " " + Join(rest[1..]);
      assert Join(fields) == ([c] + rest[0]) + tail;
      assert Join(rest) == rest[0] + tail;
      assert ([c] + rest[0]) + tail == [c] + (rest[0] + tail);
    }
  }

  /** A space-free prefix followed by a space becomes the first piece. */
  lemma {:induction false} SplitAfterPrefix(a: string, b: string)
    requires ' ' !in a
    ensures Split(a + " " + b) == [a] + Split(b)
    decreases |a|
  {
    var s := a + " " + b;
    if |a| == 0 {
      assert s[0] == ' ' && s[1..] == b;
    } else {
      var s' := a[1..] + " " + b;
      assert s[0] == a[0] && s[1..] == s';
      SplitAfterPrefix(a[1..], b);
      var rest := Split(s');
      assert rest[0] == a[1..] && rest[1..] == Split(b);
      assert Split(s) == [[a[0]] + a[1..]] + Split(b);
      assert [a[0]] + a[1..] == a;
    }
  }

  lemma {:induction false} SplitSpaceFree(a: string)
    requires ' ' !in a
    ensures Split(a) == [a]
  {
    JoinSplit(a);
  }

  /** Splitting undoes joining pieces that hold no space. */
  lemma {:induction false} SplitJoin(fields: seq<string>)
    requires |fields| >= 1
    requires forall i :: 0 <= i < |fields| ==> ' ' !in fields[i]
    ensures Split(Join(fields)) == fields
    decreases |fields|
  {
    if |fields| == 1 {
      SplitSpaceFree(fields[0]);
    } else {
      SplitJoin(fields[1..]);
      SplitAfterPrefix(fields[0], Join(fields[1..]));
      assert [fields[0]] + fields[1..] == fields;
    }
  }

  /** `tokenParts[1]` of `strings.Split(authHeader, " ")`. `None` stands for the
      index-out-of-range panic on a header without a space, which aborts the request. */
  function BearerToken(header: string): (token: Option<string>)
    ensures token.None? <==> ' ' !in header
    ensures token.Some? ==> ' ' !in token.value
  {
    var fields := Split(header);
    if |fields| < 2 then None else Some(fields[1])
  }

  /** The token is the second field whatever the first says (the scheme is never
      checked), and ends at the next space, if any. */
  lemma {:induction false} BearerTokenOf(scheme: string, token: string, tail: string)
    requires ' ' !in scheme && ' ' !in token
    requires tail == [] || tail[0] == ' '
    ensures BearerToken(scheme + " " + token + tail) == Some(token)
  {
    assert scheme + " " + token + tail == scheme + " " + (token + tail);
    SplitAfterPrefix(scheme, token + tail);
    if tail == [] {
      assert token + tail == token;
      SplitSpaceFree(token);
    } else {
      assert token + tail == token + " " + tail[1..];
      SplitAfterPrefix(token, tail[1..]);
    }
  }

  // ---------------------------------------------------------------------------
  // Resolving tokens, as written

  /** Non-empty tokens are held by at most one user (they are fresh UUIDs);
      every logged-out user holds "". */
  ghost predicate TokensUnique(users: seq<User>) {
    forall i, j :: 0 <= i < |users| && 0 <= j < |users| && i != j && users[i].token == users[j].token ==>
      users[i].token == ""
  }

  /** `CheckLogin` as written: the ID of the first user holding `token`, 0 when none does. */
  function CheckLogin(users: seq<User>, token: string): (id: nat)
    ensures id != 0 ==> exists i :: 0 <= i < |users| && users[i].token == token && users[i].id == id
    ensures (forall i :: 0 <= i < |users| ==> users[i].token != token) ==> id == 0
    ensures ((forall i :: 0 <= i < |users| ==> users[i].id > 0) &&
             (exists i :: 0 <= i < |users| && users[i].token == token)) ==> id != 0
    ensures forall i :: (0 <= i < |users| && users[i].token == token &&
                        (forall j :: 0 <= j < i ==> users[j].token != token)) ==> id == users[i].id
  {
    match FindToken(users, token)
    case None => 0
    case Some(k) => users[k].id
  }

  /** `CheckPermission` as written: 0 when the first user holding `token` has level 2, otherwise 1. */
  function CheckPermission(users: seq<User>, token: string): (r: int)
    ensures r == 0 || r == 1
    ensures r == 0 <==> exists i :: 0 <= i < |users| && users[i].token == token && users[i].level == 2 &&
                                    forall j :: 0 <= j < i ==> users[j].token != token
  {
    match FindToken(users, token)
    case None => 1
    case Some(k) => if users[k].level != 2 then 1 else 0
  }

  /** Logout leaves the token "", and a header with two spaces in a row carries the
      token "": the request is then taken to come from the first logged-out user. */
  lemma EmptyTokenResolvesLoggedOutUser()
    ensures BearerToken("Bearer  x") == Some("")
    ensures CheckLogin([User(1, "alice", "h", "alice@example.org", 1, "")], "") == 1
  {
    BearerTokenOf("Bearer", "", " x");
    assert "Bearer" + " " + "" + " x" == "Bearer  x";
  }

  /** The same empty token passes the admin gate once an administrator has logged out. */
  lemma EmptyTokenPassesAdminGate()
    ensures CheckPermission([User(1, "root", "h", "root@example.org", 2, "")], "") == 0
  {
    var users := [User(1, "root", "h", "root@example.org", 2, "")];
    assert users[0].token == "" && users[0].level == 2;
  }

  // ---------------------------------------------------------------------------
  // Resolving tokens, corrected: the empty token belongs to nobody

  function CheckLoginStrict(users: seq<User>, token: string): (id: nat)
    ensures token == "" ==> id == 0
    ensures id != 0 ==> exists i :: 0 <= i < |users| && users[i].token == token && users[i].id == id
    ensures (forall i :: 0 <= i < |users| ==> users[i].token != token) ==> id == 0
    ensures (token != "" && (forall i :: 0 <= i < |users| ==> users[i].id > 0) &&
             (exists i :: 0 <= i < |users| && users[i].token == token)) ==> id != 0
    ensures token != "" ==>
              forall i :: (0 <= i < |users| && users[i].token == token &&
                          (forall j :: 0 <= j < i ==> users[j].token != token)) ==> id == users[i].id
  {
    if token == "" then 0 else CheckLogin(users, token)
  }

  function CheckPermissionStrict(users: seq<User>, token: string): (r: int)
    ensures r == 0 || r == 1
    ensures token == "" ==> r == 1
    ensures r == 0 ==> exists i :: 0 <= i < |users| && users[i].token == token && users[i].level == 2
  {
    if token == "" then 1 else CheckPermission(users, token)
  }

  /** The guard in front of the order handlers: the requesting user's ID, or the
      reason the request is turned away. */
  function LoginGate(users: seq<User>, header: string): (r: Result<nat>)
    ensures r.Err? ==> r.error == (if ' ' !in header then MalformedHeader else PermissionDenied)
    ensures r.Ok? ==> r.value != 0 && BearerToken(header).Some? &&
                      exists i :: 0 <= i < |users| && users[i].token == BearerToken(header).value &&
                                  users[i].token != "" && users[i].id == r.value
  {
    match BearerToken(header)
    case None => Err(MalformedHeader)
    case Some(token) =>
      var id := CheckLoginStrict(users, token);
      if id == 0 then Err(PermissionDenied) else Ok(id)
  }

  /** The guard in front of the admin handlers. */
  function AdminGate(users: seq<User>, header: string): (r: Result<()>)
    ensures r.Err? ==> r.error == (if ' ' !in header then MalformedHeader else PermissionDenied)
    ensures r.Ok? ==> BearerToken(header).Some? &&
                      exists i :: 0 <= i < |users| && users[i].token == BearerToken(header).value &&
                                  users[i].token != "" && users[i].level == 2
  {
    match BearerToken(header)
    case None => Err(MalformedHeader)
    case Some(token) => if CheckPermissionStrict(users, token) == 1 then Err(PermissionDenied) else Ok(())
  }

  /** With tokens unique, the admin gate passes exactly for the non-empty token of a level-2 user. */
  lemma {:induction false} AdminGateExact(users: seq<User>, token: string)
    requires TokensUnique(users)
    ensures CheckPermissionStrict(users, token) == 0 <==>
            token != "" && exists i :: 0 <= i < |users| && users[i].token == token && users[i].level == 2
  {
    if token != "" && exists i :: 0 <= i < |users| && users[i].token == token && users[i].level == 2 {
      var i :| 0 <= i < |users| && users[i].token == token && users[i].level == 2;
      assert forall j :: 0 <= j < i ==> users[j].token != token;
    }
  }

  /** The order handlers admit a request exactly when its header carries a
      non-empty token that some user holds. */
  lemma {:induction false} LoginGateAdmits(users: seq<User>, header: string)
    requires forall i :: 0 <= i < |users| ==> users[i].id > 0
    ensures LoginGate(users, header).Ok? <==>
            BearerToken(header).Some? && BearerToken(header).value != "" &&
            exists i :: 0 <= i < |users| && users[i].token == BearerToken(header).value
  {
  }

  /** With tokens unique, the admin handlers admit a request exactly when its header
      carries the non-empty token of a level-2 user. */
  lemma {:induction false} AdminGateAdmits(users: seq<User>, header: string)
    requires TokensUnique(users)
    ensures AdminGate(users, header).Ok? <==>
            BearerToken(header).Some? && BearerToken(header).value != "" &&
            exists i :: 0 <= i < |users| && users[i].token == BearerToken(header).value && users[i].level == 2
  {
    if BearerToken(header).Some? {
      AdminGateExact(users, BearerToken(header).value);
    }
  }

  /** A logged-out user's old token resolves to nobody. */
  lemma {:induction false} LogoutRevokesToken(users: seq<User>, k: nat)
    requires TokensUnique(users) && k < |users|
    ensures CheckLoginStrict(users[k := users[k].(token := "")], users[k].token) == 0
  {
    var after := users[k := users[k].(token := "")];
    var t := users[k].token;
    if t != "" {
      forall i | 0 <= i < |after| ensures after[i].token != t {
        if i != k { assert users[i].token == after[i].token; }
      }
    }
  }

  /** Login rotates the token: the new one resolves to the user, the previous one to nobody. */
  lemma {:induction false} LoginRotatesToken(users: seq<User>, k: nat, newToken: string)
    requires TokensUnique(users) && k < |users|
    requires forall i :: 0 <= i < |users| ==> users[i].id > 0 && users[i].token != newToken
    requires newToken != ""
    ensures CheckLoginStrict(users[k := users[k].(token := newToken)], newToken) == users[k].id
    ensures CheckLoginStrict(users[k := users[k].(token := newToken)], users[k].token) == 0
  {
    var after := users[k := users[k].(token := newToken)];
    assert after[k].token == newToken;
    var id := CheckLoginStrict(after, newToken);
    var i :| 0 <= i < |after| && after[i].token == newToken && after[i].id == id;
    assert i == k;
    var t := users[k].token;
    if t != "" {
      forall i | 0 <= i < |after| ensures after[i].token != t {
        if i != k { assert users[i].token == after[i].token; }
      }
    }
  }

  /** A newly registered user (level 1, fresh token) is logged in under their own
      ID and never passes the admin gate. */
  lemma {:induction false} RegisteredUserSession(users: seq<User>, u: User)
    requires u.level == 1 && u.token != "" && u.id > 0
    requires forall i :: 0 <= i < |users| ==> users[i].id > 0 && users[i].token != u.token
    ensures CheckLoginStrict(users + [u], u.token) == u.id
    ensures CheckPermissionStrict(users + [u], u.token) == 1
  {
    var after := users + [u];
    assert after[|users|] == u;
    var id := CheckLoginStrict(after, u.token);
    var i :| 0 <= i < |after| && after[i].token == u.token && after[i].id == id;
    assert i == |users|;
  }
}
