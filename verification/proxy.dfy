/** The protection and lazy-initialisation proxy of the Proxy-pattern exercise.

    `DatabaseProxy` holds a role fixed at construction and a `RealDatabase` it creates
    on the first call it forwards. Select is forwarded for every role; delete only for
    the role "ADMIN", compared ignoring case. The proxy's state is the role and whether
    the real database exists; what the real database and the proxy print becomes a
    trace of events. The role may be Java's `null`, hence `Option<string>`. */
module Proxy {

  import opened Wrappers

  /** The proxy: its role and whether it has created the real database yet. */
  datatype DatabaseProxy = DatabaseProxy(role: Option<string>, connected: bool)

  /** What happens observably during a call, in order. */
  datatype Event =
    | Connected               // `new RealDatabase()` ran
    | Selected(id: int)       // the real database's `select`
    | Deleted(id: int)        // the real database's `delete`
    | AccessDenied(role: Option<string>)

  /** The state after a call and the events the call produced. */
  datatype Response = Response(proxy: DatabaseProxy, events: seq<Event>)

  /** A proxy as constructed: the role given, no real database yet. */
  function NewProxy(role: Option<string>): (p: DatabaseProxy)
    ensures p.role == role && !p.connected
  {
    DatabaseProxy(role, false)
  }

  /** ASCII upper-casing of one character. */
  function Upper(c: char): char {
    if 'a' <= c <= 'z' then (c as int - 'a' as int + 'A' as int) as char else c
  }

  /** `a.equalsIgnoreCase(b)` restricted to ASCII letters: same length and the same
      characters once both are upper-cased. */
  predicate EqualsIgnoreCase(a: string, b: string) {
    |a| == |b| && forall i :: 0 <= i < |a| ==> Upper(a[i]) == Upper(b[i])
  }

  /** `"ADMIN".equalsIgnoreCase(role)`: true exactly for a five-letter role whose
      letters upper-case to A, D, M, I, N, and false for a `null` role. */
  predicate IsAdmin(role: Option<string>): (b: bool)
    ensures b <==> role.Some? && |role.value| == 5 &&
                   role.value[0] in "Aa" && role.value[1] in "Dd" && role.value[2] in "Mm" &&
                   role.value[3] in "Ii" && role.value[4] in "Nn"
  {
    role.Some? && EqualsIgnoreCase("ADMIN", role.value)
  }

  /** Two roles that differ only in the case of their letters are both admins or
      neither is. */
  lemma AdminIgnoresCase(a: string, b: string)
    requires EqualsIgnoreCase(a, b)
    ensures IsAdmin(Some(a)) <==> IsAdmin(Some(b))
  {
  }

  /** `ensureDatabaseInitialized`: creates the real database unless it exists already.
      Afterwards it exists, the role is untouched, and exactly one connection happened
      if and only if there was none before. */
  function EnsureInitialized(p: DatabaseProxy): (r: Response)
    ensures r.proxy.connected && r.proxy.role == p.role
    ensures r.events == (if p.connected then [] else [Connected])
  {
    if p.connected then Response(p, []) else Response(p.(connected := true), [Connected])
  }

  /** `select`: every role may select; the call reaches the real database, creating it
      first if needed. */
  function Select(p: DatabaseProxy, id: int): (r: Response)
    ensures r.proxy == p.(connected := true)
    ensures |r.events| > 0 && r.events[|r.events| - 1] == Selected(id)
    ensures Connected in r.events <==> !p.connected
  {
    var init := EnsureInitialized(p);
    Response(init.proxy, init.events + [Selected(id)])
  }

  /** `delete`: reaches the real database only for an admin role; any other role gets
      the access-denied line, and then the proxy is left exactly as it was (in particular
      no real database is created). */
  function Delete(p: DatabaseProxy, id: int): (r: Response)
    ensures Deleted(id) in r.events <==> IsAdmin(p.role)
    ensures IsAdmin(p.role) ==> r.proxy == p.(connected := true) &&
                                r.events[|r.events| - 1] == Deleted(id)
    ensures !IsAdmin(p.role) ==> r == Response(p, [AccessDenied(p.role)])
  {
    if IsAdmin(p.role) then
      var init := EnsureInitialized(p);
      Response(init.proxy, init.events + [Deleted(id)])
    else
      Response(p, [AccessDenied(p.role)])
  }

  /** The calls of the `Database` interface, as a client issues them. */
  datatype Call = SelectCall(id: int) | DeleteCall(id: int)

  /** Whether the proxy hands `c` on to the real database. */
  predicate Forwards(role: Option<string>, c: Call) {
    c.SelectCall? || IsAdmin(role)
  }

  function Handle(p: DatabaseProxy, c: Call): Response {
    match c
    case SelectCall(id) => Select(p, id)
    case DeleteCall(id) => Delete(p, id)
  }

  /** Number of `Connected` events in a trace. */
  function Connections(es: seq<Event>): nat
    decreases |es|
  {
    if |es| == 0 then 0 else (if es[0] == Connected then 1 else 0) + Connections(es[1..])
  }

  lemma {:induction false} ConnectionsAppend(a: seq<Event>, b: seq<Event>)
    ensures Connections(a + b) == Connections(a) + Connections(b)
    decreases |a|
  {
    if |a| == 0 {
      assert a + b == b;
    } else {
      assert (a + b)[1..] == a[1..] + b;
      ConnectionsAppend(a[1..], b);
    }
  }

  /** Serves `calls` in order; the final proxy and the whole event trace. The role never
      changes, and the real database exists at the end exactly when it existed at the
      start or some call was forwarded. */
  function Serve(p: DatabaseProxy, calls: seq<Call>): (r: Response)
    ensures r.proxy.role == p.role
    ensures r.proxy.connected <==>
      p.connected || exists k :: 0 <= k < |calls| && Forwards(p.role, calls[k])
    decreases |calls|
  {
    if |calls| == 0 then Response(p, [])
    else
      var first := Handle(p, calls[0]);
      var rest := Serve(first.proxy, calls[1..]);
      assert forall k :: 1 <= k < |calls| ==> calls[k] == calls[1..][k - 1];
      Response(rest.proxy, first.events + rest.events)
  }

  /** One call connects exactly when it is forwarded by a proxy without a real
      database, and leaves one behind exactly when there was one or it was forwarded. */
  lemma HandleConnects(p: DatabaseProxy, c: Call)
    ensures Connections(Handle(p, c).events) == (if Forwards(p.role, c) && !p.connected then 1 else 0)
    ensures Handle(p, c).proxy == p.(connected := p.connected || Forwards(p.role, c))
  {
    var es := Handle(p, c).events;
    if Forwards(p.role, c) {
      var init := EnsureInitialized(p);
      var last := if c.SelectCall? then Selected(c.id) else Deleted(c.id);
      assert es == init.events + [last];
      ConnectionsAppend(init.events, [last]);
      assert [last][1..] == [];
      assert [Connected][1..] == [];
    } else {
      assert es == [AccessDenied(p.role)];
      assert [AccessDenied(p.role)][1..] == [];
    }
  }

  /** The real database is created at most once per proxy: never by a proxy that has it
      already, and once, on the first forwarded call, by one that does not. */
  lemma {:induction false} ConnectsAtMostOnce(p: DatabaseProxy, calls: seq<Call>)
    ensures Connections(Serve(p, calls).events) ==
      (if p.connected || forall k :: 0 <= k < |calls| ==> !Forwards(p.role, calls[k]) then 0 else 1)
    decreases |calls|
  {
    if |calls| > 0 {
      var first := Handle(p, calls[0]);
      HandleConnects(p, calls[0]);
      ConnectsAtMostOnce(first.proxy, calls[1..]);
      ConnectionsAppend(first.events, Serve(first.proxy, calls[1..]).events);
      assert forall k :: 1 <= k < |calls| ==> calls[k] == calls[1..][k - 1];
    }
  }

  /** An event of the real database itself, which needs it to exist. */
  predicate UsesDatabase(e: Event) {
    e.Selected? || e.Deleted?
  }

  /** Every use of the real database in `es` comes after it was created: it existed
      already (`connected`) or a `Connected` event precedes the use. */
  ghost predicate CreatedBeforeUse(connected: bool, es: seq<Event>) {
    forall i :: 0 <= i < |es| && UsesDatabase(es[i]) ==> connected || Connected in es[..i]
  }

  /** Lazy initialisation is never late: in every trace, the real database is created
      before the first call that reaches it. */
  lemma {:induction false} CreatedBeforeFirstUse(p: DatabaseProxy, calls: seq<Call>)
    ensures CreatedBeforeUse(p.connected, Serve(p, calls).events)
    decreases |calls|
  {
    if |calls| > 0 {
      var first := Handle(p, calls[0]);
      var rest := Serve(first.proxy, calls[1..]);
      var es := first.events + rest.events;
      assert Serve(p, calls).events == es;
      CreatedBeforeFirstUse(first.proxy, calls[1..]);
      assert first.proxy.connected && !p.connected ==> first.events[0] == Connected;
      forall i | 0 <= i < |es| && UsesDatabase(es[i])
        ensures p.connected || Connected in es[..i]
      {
        if !p.connected {
          if i < |first.events| {
            assert first.events[i] == es[i];
            assert i > 0 && es[..i][0] == Connected;
          } else {
            var j := i - |first.events|;
            assert rest.events[j] == es[i];
            if first.proxy.connected {
              assert es[..i][0] == first.events[0];
            } else {
              assert Connected in rest.events[..j];
              assert es[..i] == first.events + rest.events[..j];
            }
          }
        }
      }
    }
  }

  /** The events of a forwarded call end with the real database's answer. */
  function Answer(c: Call): Event {
    match c
    case SelectCall(id) => Selected(id)
    case DeleteCall(id) => Deleted(id)
  }

  /** A forwarded call reaches the real database; a denied one produces only the denial. */
  lemma HandleForwardsExactly(p: DatabaseProxy, c: Call)
    ensures Forwards(p.role, c) ==> Handle(p, c).events == EnsureInitialized(p).events + [Answer(c)]
    ensures !Forwards(p.role, c) ==> Handle(p, c) == Response(p, [AccessDenied(p.role)])
  {
  }

  /** The demonstration in `main`: a USER proxy selects but is denied the delete; an
      ADMIN proxy does both. Each connects exactly once, on its first call. */
  lemma Demo()
    ensures Serve(NewProxy(Some("USER")), [SelectCall(101), DeleteCall(101)]).events ==
      [Connected, Selected(101), AccessDenied(Some("USER"))]
    ensures Serve(NewProxy(Some("ADMIN")), [SelectCall(202), DeleteCall(202)]).events ==
      [Connected, Selected(202), Deleted(202)]
  {
    assert !IsAdmin(Some("USER"));
    assert IsAdmin(Some("ADMIN"));
    var calls := [SelectCall(101), DeleteCall(101)];
    assert calls[1..] == [DeleteCall(101)] && calls[1..][1..] == [];
    var admin := [SelectCall(202), DeleteCall(202)];
    assert admin[1..] == [DeleteCall(202)] && admin[1..][1..] == [];
  }

  /** Case does not matter for the role check, but the whole word does, and a `null`
      role is never an admin. */
  lemma AdminCheckExamples()
    ensures IsAdmin(Some("admin")) && IsAdmin(Some("Admin")) && IsAdmin(Some("ADMIN"))
    ensures !IsAdmin(Some("ADMINS")) && !IsAdmin(Some("")) && !IsAdmin(None)
  {
  }
}
