/** What the router promises: which contract wins, what its arguments are, and that a URI built from a
    template resolves back to it. */
module Routing {
  import opened Text
  import opened ServiceContract

  // ---------- Registration ----------

  /** The contracts after registering the templates `ts` in turn. */
  function Registered(ts: seq<string>): seq<Contract> {
    if ts == [] then []
    else Inserted(Registered(ts[..|ts| - 1]), MakeContract(ts[|ts| - 1]))
  }

  /** Which registration each entry of `Registered(ts)` comes from. */
  ghost function Order(ts: seq<string>): seq<nat> {
    if ts == [] then []
    else
      var n := |ts| - 1;
      var before, o := Registered(ts[..n]), Order(ts[..n]);
      var i := InsertPosition(before, MakeContract(ts[n]).key);
      if i <= |o| then o[..i] + [n] + o[i..] else o
  }

  ghost predicate SortedFrom(contracts: seq<Contract>, order: seq<nat>, ts: seq<string>) {
    |contracts| == |order| == |ts| &&
    (forall k :: 0 <= k < |order| ==> order[k] < |ts| && contracts[k] == MakeContract(ts[order[k]])) &&
    (forall a, b :: 0 <= a < b < |order| ==>
       !Less(contracts[b].key, contracts[a].key) && (contracts[a].key == contracts[b].key ==> order[a] < order[b]))
  }

  /** The multimap is sorted by key, and equal keys stay in registration order. */
  lemma {:induction false} RegisteredIsSorted(ts: seq<string>)
    ensures SortedFrom(Registered(ts), Order(ts), ts)
  {
    if ts != [] {
      var n := |ts| - 1;
      RegisteredIsSorted(ts[..n]);
      InsertKeepsSorted(Registered(ts[..n]), Order(ts[..n]), ts);
    }
  }

  /** Insertion shifts what follows it by one. */
  lemma InsertAt<T>(s: seq<T>, i: nat, x: T)
    requires i <= |s|
    ensures var s' := s[..i] + [x] + s[i..];
            |s'| == |s| + 1 && s'[i] == x &&
            (forall k :: 0 <= k < i ==> s'[k] == s[k]) &&
            (forall k :: i < k < |s'| ==> s'[k] == s[k - 1])
  {
  }

  lemma InsertKeepsSorted(cs: seq<Contract>, o: seq<nat>, ts: seq<string>)
    requires ts != [] && SortedFrom(cs, o, ts[..|ts| - 1])
    ensures var c := MakeContract(ts[|ts| - 1]);
            var i := InsertPosition(cs, c.key);
            SortedFrom(Inserted(cs, c), o[..i] + [|ts| - 1] + o[i..], ts)
  {
    hide MakeContract, Less;
    var n := |ts| - 1;
    var c := MakeContract(ts[n]);
    var i := InsertPosition(cs, c.key);
    var cs', o' := Inserted(cs, c), o[..i] + [n] + o[i..];
    InsertKeepsOrigin(cs, o, ts);
    hide Inserted;
    forall a, b | 0 <= a < b < |o'|
      ensures !Less(cs'[b].key, cs'[a].key)
      ensures cs'[a].key == cs'[b].key ==> o'[a] < o'[b]
    {
      InsertKeepsOrder(cs, o, ts[..n], c, a, b);
    }
  }

  lemma InsertKeepsOrigin(cs: seq<Contract>, o: seq<nat>, ts: seq<string>)
    requires ts != [] && SortedFrom(cs, o, ts[..|ts| - 1])
    ensures var c := MakeContract(ts[|ts| - 1]);
            var i := InsertPosition(cs, c.key);
            var cs', o' := Inserted(cs, c), o[..i] + [|ts| - 1] + o[i..];
            |cs'| == |o'| == |ts| && forall k :: 0 <= k < |o'| ==> o'[k] < |ts| && cs'[k] == MakeContract(ts[o'[k]])
  {
    hide MakeContract, Less;
    var n := |ts| - 1;
    var c := MakeContract(ts[n]);
    var i := InsertPosition(cs, c.key);
    InsertAt(cs, i, c);
    InsertAt(o, i, n);
  }

  lemma {:induction false} InsertKeepsOrder(cs: seq<Contract>, o: seq<nat>, ts: seq<string>, c: Contract, a: nat, b: nat)
    requires SortedFrom(cs, o, ts) && a < b <= |cs|
    ensures |Inserted(cs, c)| == |cs| + 1
    ensures var i := InsertPosition(cs, c.key);
            var o' := o[..i] + [|ts|] + o[i..];
            !Less(Inserted(cs, c)[b].key, Inserted(cs, c)[a].key) &&
            (Inserted(cs, c)[a].key == Inserted(cs, c)[b].key ==> o'[a] < o'[b])
  {
    hide MakeContract, Less;
    var i := InsertPosition(cs, c.key);
    InsertAt(cs, i, c);
    InsertAt(o, i, |ts|);
    if a == i {
      if b > i + 1 { NotLessAfter(c.key, cs[i].key, cs[b - 1].key); }
      LessIsStrict(c.key, cs[b - 1].key);
      assert Less(c.key, cs[b - 1].key);
    } else if b == i {
      assert o[a] < |ts|;
    } else {
      var x, y := if a < i then a else a - 1, if b < i then b else b - 1;
      assert 0 <= x < y < |o|;
    }
  }

  lemma {:induction false} NotLessAfter(key: string, next: string, later: string)
    requires Less(key, next) && !Less(later, next)
    ensures Less(key, later)
  {
    LessTotal(later, next);
    if later != next { LessTransitive(key, next, later); }
  }

  lemma OrderIs(ts: seq<string>)
    requires ts != []
    ensures var n := |ts| - 1;
            var i := InsertPosition(Registered(ts[..n]), MakeContract(ts[n]).key);
            i <= |Order(ts[..n])| && Order(ts) == Order(ts[..n])[..i] + [n] + Order(ts[..n])[i..]
  {
    hide MakeContract, Inserted;
    RegisteredIsSorted(ts[..|ts| - 1]);
  }

  lemma {:induction false} EveryRegistrationIsKept(ts: seq<string>, v: nat)
    requires v < |ts|
    ensures exists k :: 0 <= k < |Order(ts)| && Order(ts)[k] == v
  {
    hide MakeContract, Inserted, Registered, Order;
    OrderIs(ts);
    var n := |ts| - 1;
    var o, i := Order(ts[..n]), InsertPosition(Registered(ts[..n]), MakeContract(ts[n]).key);
    InsertAt(o, i, n);
    if v == n {
      assert Order(ts)[i] == n;
    } else {
      EveryRegistrationIsKept(ts[..n], v);
      var k :| 0 <= k < |o| && o[k] == v;
      assert Order(ts)[if k < i then k else k + 1] == v;
    }
  }

  // ---------- Which contract wins ----------

  /** Among the matching registrations the winner has the shortest key; of several with that key it is
      the one registered first. */
  lemma {:induction false} ShortestKeyWins(ts: seq<string>, uri: string, v: nat)
    requires v < |ts| && Matches(MakeContract(ts[v]), uri)
    ensures var w := Winner(Registered(ts), uri, 0);
            w < |Order(ts)| == |Registered(ts)| && Order(ts)[w] < |ts| &&
            var u := Order(ts)[w];
            var best, other := MakeContract(ts[u]), MakeContract(ts[v]);
            Registered(ts)[w] == best &&
            (|best.key| < |other.key| || (best.key == other.key && u <= v))
  {
    hide Matches, Registered, Order, MakeContract, Less;
    RegisteredIsSorted(ts);
    EveryRegistrationIsKept(ts, v);
    var k :| 0 <= k < |Order(ts)| && Order(ts)[k] == v;
    var w := Winner(Registered(ts), uri, 0);
    assert w <= k;
    assert w < k ==> !Less(Registered(ts)[k].key, Registered(ts)[w].key);
    MatchIsCandidate(Registered(ts)[w], uri);
    MatchIsCandidate(Registered(ts)[k], uri);
    CandidatesCompare(Registered(ts)[w].key, Registered(ts)[k].key, uri);
  }

  lemma MatchIsCandidate(c: Contract, uri: string)
    requires Matches(c, uri)
    ensures c.key <= uri
  {
  }

  /** Keys that are prefixes of one URI compare as their lengths do. */
  lemma {:induction false} CandidatesCompare(a: string, b: string, uri: string)
    requires a <= uri && b <= uri
    ensures |a| == |b| ==> a == b
    ensures |a| < |b| ==> a <= b && Less(a, b)
    ensures |b| < |a| ==> b <= a && Less(b, a)
  {
    if |a| <= |b| {
      assert a == uri[..|a|] && b == uri[..|b|] && b[..|a|] == a;
      if |a| < |b| { PrefixIsLess(a, b); }
    } else {
      assert a == uri[..|a|] && b == uri[..|b|] && a[..|b|] == b;
      PrefixIsLess(b, a);
    }
  }

  ghost predicate DistinctKeys(ts: seq<string>) {
    forall i, j :: 0 <= i < j < |ts| ==> OmitParameters(ts[i]) != OmitParameters(ts[j])
  }

  ghost predicate StrictlySorted(contracts: seq<Contract>) {
    forall a, b :: 0 <= a < b < |contracts| ==> Less(contracts[a].key, contracts[b].key)
  }

  lemma {:induction false} StrictlySortedIsUnique(a: seq<Contract>, b: seq<Contract>)
    requires StrictlySorted(a) && StrictlySorted(b)
    requires forall c :: c in a <==> c in b
    ensures a == b
  {
    assert a != [] ==> a[0] in a && a[0] in b;
    assert b != [] ==> b[0] in b && b[0] in a;
    if a != [] {
      if a[0] != b[0] {
        LessIsStrict(a[0].key, b[0].key);
        assert false;
      }
      forall c
        ensures c in a[1..] <==> c in b[1..]
      {
        LessIsStrict(a[0].key, a[0].key);
        assert c in a <==> c == a[0] || c in a[1..];
        assert c in b <==> c == b[0] || c in b[1..];
      }
      StrictlySortedIsUnique(a[1..], b[1..]);
    }
  }

  lemma {:induction false} RegisteredOf(ts: seq<string>)
    ensures forall c :: c in Registered(ts) <==> exists t <- ts :: c == MakeContract(t)
    ensures DistinctKeys(ts) ==> StrictlySorted(Registered(ts))
  {
    hide MakeContract, Inserted;
    RegisteredIsSorted(ts);
    var cs := Registered(ts);
    forall c | exists t <- ts :: c == MakeContract(t)
      ensures c in cs
    {
      var t :| t in ts && c == MakeContract(t);
      var v :| 0 <= v < |ts| && ts[v] == t;
      EveryRegistrationIsKept(ts, v);
      var k :| 0 <= k < |Order(ts)| && Order(ts)[k] == v;
      assert cs[k] == c;
    }
    forall a, b | 0 <= a < b < |cs| && DistinctKeys(ts)
      ensures Less(cs[a].key, cs[b].key)
    {
      KeyOfContract(ts[Order(ts)[a]]);
      KeyOfContract(ts[Order(ts)[b]]);
      LessTotal(cs[a].key, cs[b].key);
      var i, j := Order(ts)[a], Order(ts)[b];
      assert cs[a].key == cs[b].key ==> i < j;
    }
  }

  lemma {:induction false} KeyOfContract(t: string)
    ensures MakeContract(t).key == OmitParameters(t)
  {
  }

  /** Resolve succeeds exactly when the URI does not end in a slash and some registration matches it. */
  lemma {:induction false} ResolvesExactlyWhenMatched(ts: seq<string>, uri: string, args: seq<string>)
    ensures Resolved(Registered(ts), uri, args).ok <==>
              !EndsWith(uri, "/") && exists t <- ts :: Matches(MakeContract(t), uri)
    ensures Resolved(Registered(ts), uri, args).ok ==> Resolved(Registered(ts), uri, args).uriTemplate in ts
  {
    hide Matches, Registered;
    RegisteredOf(ts);
    var cs := Registered(ts);
    var w := Winner(cs, uri, 0);
    if w < |cs| {
      assert cs[w] in cs;
      var t :| t in ts && cs[w] == MakeContract(t);
    } else {
      forall t | t in ts
        ensures !Matches(MakeContract(t), uri)
      {
        var c := MakeContract(t);
        assert c in cs;
        var j :| 0 <= j < |cs| && cs[j] == c;
      }
    }
  }

  /** With distinct keys the order of registration does not matter at all. */
  lemma {:induction false} RegistrationOrderIsIrrelevant(ts: seq<string>, us: seq<string>, uri: string, args: seq<string>)
    requires DistinctKeys(ts) && DistinctKeys(us)
    requires forall t :: t in ts <==> t in us
    ensures Registered(ts) == Registered(us)
    ensures Resolved(Registered(ts), uri, args) == Resolved(Registered(us), uri, args)
  {
    hide MakeContract;
    RegisteredOf(ts);
    RegisteredOf(us);
    StrictlySortedIsUnique(Registered(ts), Registered(us));
  }

  // ---------- Arguments ----------

  /** On success the last `argsCount` arguments are the winner's own. */
  lemma {:induction false} WinnersArgumentsComeLast(contracts: seq<Contract>, uri: string, args: seq<string>)
    requires Resolved(contracts, uri, args).ok
    ensures var w := Winner(contracts, uri, 0);
            var out := Resolved(contracts, uri, args).args;
            var c := contracts[w];
            c.argsCount <= |out| - |args| && args <= out &&
            out[|out| - c.argsCount..] == Arguments(uri[|c.key|..])
  {
    hide Arguments;
  }

  lemma {:induction false} NothingPushed(contracts: seq<Contract>, uri: string, n: nat)
    requires n <= |contracts|
    requires forall j :: 0 <= j < n ==> !IsCandidate(contracts[j], uri)
    ensures Pushed(contracts, uri, n) == []
  {
    if n > 0 { NothingPushed(contracts, uri, n - 1); }
  }

  ghost predicate PrefixFree(contracts: seq<Contract>) {
    forall i, j :: 0 <= i < |contracts| && 0 <= j < |contracts| && i != j ==> !(contracts[i].key <= contracts[j].key)
  }

  /** When no key is a prefix of another, a URI has one candidate, and nothing but its arguments is pushed. */
  lemma {:induction false} OnlyCandidate(contracts: seq<Contract>, uri: string, k: nat)
    requires k < |contracts| && IsCandidate(contracts[k], uri) && PrefixFree(contracts)
    ensures forall j :: 0 <= j < |contracts| && j != k ==> !IsCandidate(contracts[j], uri)
    ensures Pushed(contracts, uri, k + 1) == Arguments(uri[|contracts[k].key|..])
    ensures Matches(contracts[k], uri) ==> Winner(contracts, uri, 0) == k
    ensures !Matches(contracts[k], uri) ==> Winner(contracts, uri, 0) == |contracts|
  {
    hide Arguments;
    forall j | 0 <= j < |contracts| && j != k
      ensures !IsCandidate(contracts[j], uri)
    {
      if IsCandidate(contracts[j], uri) { CandidatesCompare(contracts[j].key, contracts[k].key, uri); }
    }
    NothingPushed(contracts, uri, k);
  }

  /** Every candidate tried leaves its arguments in the vector, in the order of trial, whether it fits or not. */
  lemma {:induction false} EveryTrialIsPushed(contracts: seq<Contract>, uri: string, j: nat, n: nat)
    requires j < n <= |contracts|
    ensures Pushed(contracts, uri, j) + Tried(contracts[j], uri) <= Pushed(contracts, uri, n)
    ensures IsCandidate(contracts[j], uri) ==> Tried(contracts[j], uri) == Arguments(uri[|contracts[j].key|..])
  {
    hide Tried;
    if j < n - 1 {
      EveryTrialIsPushed(contracts, uri, j, n - 1);
    } else {
      assert Pushed(contracts, uri, n) == Pushed(contracts, uri, j) + Tried(contracts[j], uri);
    }
    TriedIs(contracts[j], uri);
  }

  lemma TriedIs(c: Contract, uri: string)
    ensures Tried(c, uri) == if c.key <= uri then Arguments(uri[|c.key|..]) else []
  {
  }

  /** What a failed resolution leaves: no template; the vector as it was if the URI ends in a slash, and else with
      the arguments of all contracts behind it. */
  lemma {:induction false} FailureLeaves(contracts: seq<Contract>, uri: string, args: seq<string>)
    requires !Resolved(contracts, uri, args).ok
    ensures Resolved(contracts, uri, args).uriTemplate == ""
    ensures EndsWith(uri, "/") ==> Resolved(contracts, uri, args).args == args
    ensures !EndsWith(uri, "/") ==> Resolved(contracts, uri, args).args == args + Pushed(contracts, uri, |contracts|)
  {
    hide Matches, Pushed;
  }
}
