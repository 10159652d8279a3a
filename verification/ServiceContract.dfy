/** The URI contract router: Register fills a multimap sorted by method key, Resolve walks it. */
module ServiceContract {
  import opened Text

  // ---------- Reading a template ----------

  predicate IsParameter(part: string) {
    StartsWith(part, "{") && EndsWith(part, "}")
  }

  function CountParameters(parts: seq<string>): nat {
    if parts == [] then 0
    else (if IsParameter(parts[0]) then 1 else 0) + CountParameters(parts[1..])
  }

  function IndexOf(s: string, c: char): (i: nat)
    requires c in s
    ensures i < |s| && s[i] == c && c !in s[..i]
  {
    if s[0] == c then 0 else 1 + IndexOf(s[1..], c)
  }

  /** A match of the expression `\/{.*?\}` starts at the front of `s`. */
  predicate StartsParameter(s: string) {
    |s| >= 2 && s[0] == '/' && s[1] == '{' && '}' in s[2..]
  }

  /** regex_replace with the empty text: remove the leftmost, shortest matches one after another. */
  function OmitParameters(s: string): string
    decreases |s|
  {
    if s == [] then []
    else if StartsParameter(s) then OmitParameters(s[3 + IndexOf(s[2..], '}')..])
    else [s[0]] + OmitParameters(s[1..])
  }

  function CountOmitted(s: string): nat
    decreases |s|
  {
    if s == [] then 0
    else if StartsParameter(s) then 1 + CountOmitted(s[3 + IndexOf(s[2..], '}')..])
    else CountOmitted(s[1..])
  }

  // ---------- The contracts ----------

  datatype Contract = Contract(key: string, uriTemplate: string, argsCount: nat)

  function MakeContract(uriTemplate: string): Contract {
    Contract(OmitParameters(uriTemplate), uriTemplate, CountParameters(Split(uriTemplate, '/')))
  }

  /** std::multimap::insert: after every entry whose key is not greater. */
  function InsertPosition(contracts: seq<Contract>, key: string): (i: nat)
    ensures i <= |contracts|
    ensures forall j :: 0 <= j < i ==> !Less(key, contracts[j].key)
    ensures i < |contracts| ==> Less(key, contracts[i].key)
  {
    if contracts == [] || Less(key, contracts[0].key) then 0
    else 1 + InsertPosition(contracts[1..], key)
  }

  function Inserted(contracts: seq<Contract>, c: Contract): seq<Contract> {
    var i := InsertPosition(contracts, c.key);
    contracts[..i] + [c] + contracts[i..]
  }

  // ---------- Matching a URI ----------

  function NonEmpty(parts: seq<string>): seq<string> {
    if parts == [] then []
    else (if parts[0] != [] then [parts[0]] else []) + NonEmpty(parts[1..])
  }

  /** The arguments found in what follows the key; none when there is no slash at all. */
  function Arguments(rest: string): seq<string> {
    if '/' in rest then NonEmpty(Split(rest, '/')) else []
  }

  predicate IsCandidate(c: Contract, uri: string) {
    StartsWith(uri, c.key)
  }

  predicate Matches(c: Contract, uri: string) {
    IsCandidate(c, uri) && |Arguments(uri[|c.key|..])| == c.argsCount
  }

  /** What trying one contract pushes onto the argument vector, whether or not the count fits. */
  function Tried(c: Contract, uri: string): seq<string> {
    if IsCandidate(c, uri) then Arguments(uri[|c.key|..]) else []
  }

  /** Everything pushed while trying the first `n` contracts. */
  function Pushed(contracts: seq<Contract>, uri: string, n: nat): seq<string>
    requires n <= |contracts|
  {
    if n == 0 then [] else Pushed(contracts, uri, n - 1) + Tried(contracts[n - 1], uri)
  }

  /** Position of the first matching contract from `i` on, or the number of contracts if there is none. */
  function Winner(contracts: seq<Contract>, uri: string, i: nat): (w: nat)
    requires i <= |contracts|
    ensures i <= w <= |contracts|
    ensures w < |contracts| ==> Matches(contracts[w], uri)
    ensures forall j :: i <= j < w ==> !Matches(contracts[j], uri)
    decreases |contracts| - i
  {
    if i == |contracts| || Matches(contracts[i], uri) then i else Winner(contracts, uri, i + 1)
  }

  datatype Resolution = Resolution(ok: bool, uriTemplate: string, args: seq<string>)

  /** The outcome of resolving `uri` with an argument vector that already holds `args`. */
  function Resolved(contracts: seq<Contract>, uri: string, args: seq<string>): Resolution {
    var w := Winner(contracts, uri, 0);
    if EndsWith(uri, "/") then Resolution(false, "", args)
    else if w < |contracts| then Resolution(true, contracts[w].uriTemplate, args + Pushed(contracts, uri, w + 1))
    else Resolution(false, "", args + Pushed(contracts, uri, w))
  }

  lemma {:induction false} CountParametersAppend(parts: seq<string>, p: string)
    ensures CountParameters(parts + [p]) == CountParameters(parts) + if IsParameter(p) then 1 else 0
  {
    if parts != [] {
      assert (parts + [p])[1..] == parts[1..] + [p];
      CountParametersAppend(parts[1..], p);
    }
  }

  lemma {:induction false} NonEmptyAppend(parts: seq<string>, p: string)
    ensures NonEmpty(parts + [p]) == NonEmpty(parts) + if p != [] then [p] else []
  {
    if parts != [] {
      assert (parts + [p])[1..] == parts[1..] + [p];
      NonEmptyAppend(parts[1..], p);
    }
  }

  class ServiceContract {
    var Contracts: seq<Contract>

    constructor ()
      ensures Contracts == []
    {
      Contracts := [];
    }

    method Register(uriTemplate: string)
      modifies this
      ensures Contracts == Inserted(old(Contracts), MakeContract(uriTemplate))
    {
      var vec := Split(uriTemplate, '/');
      var argsCount := 0;
      var it := 0;
      while it < |vec|
        invariant 0 <= it <= |vec| && Contracts == old(Contracts)
        invariant argsCount == CountParameters(vec[..it])
      {
        assert vec[..it + 1] == vec[..it] + [vec[it]];
        CountParametersAppend(vec[..it], vec[it]);
        if StartsWith(vec[it], "{") && EndsWith(vec[it], "}") {
          argsCount := argsCount + 1;
        }
        it := it + 1;
      }
      assert vec[..|vec|] == vec;
      var webMethod := OmitParameters(uriTemplate);
      assert Contract(webMethod, uriTemplate, argsCount) == MakeContract(uriTemplate);
      Contracts := Inserted(Contracts, Contract(webMethod, uriTemplate, argsCount));
    }

    /** `args` is the vector as passed in, `out_args` the same vector afterwards: it is never cleared. */
    method Resolve(uri: string, args: seq<string>)
      returns (ok: bool, out_uriTemplate: string, out_args: seq<string>)
      ensures Resolution(ok, out_uriTemplate, out_args) == Resolved(Contracts, uri, args)
    {
      hide Matches, Tried;
      ok, out_uriTemplate, out_args := false, "", args;
      if EndsWith(uri, "/") {
        return;
      }
      var it := 0;
      while it < |Contracts|
        invariant 0 <= it <= |Contracts|
        invariant Winner(Contracts, uri, 0) == Winner(Contracts, uri, it)
        invariant out_args == args + Pushed(Contracts, uri, it)
      {
        var matched;
        matched, out_args := Try(Contracts[it], uri, out_args);
        if matched {
          return true, Contracts[it].uriTemplate, out_args;
        }
        it := it + 1;
      }
    }

    /** The loop body of Resolve: whatever it pushes stays pushed when the count does not fit. */
    static method Try(c: Contract, uri: string, args: seq<string>) returns (matched: bool, out_args: seq<string>)
      ensures matched == Matches(c, uri) && out_args == args + Tried(c, uri)
    {
      matched, out_args := false, args;
      if StartsWith(uri, c.key) {
        var argsCount;
        argsCount, out_args := PushArguments(uri[|c.key|..], args);
        matched := c.argsCount == argsCount;
      }
    }

    /** The inner loop of Resolve: push the non-empty parts and count them. */
    static method PushArguments(rest: string, args: seq<string>) returns (argsCount: nat, out_args: seq<string>)
      ensures argsCount == |Arguments(rest)| && out_args == args + Arguments(rest)
    {
      argsCount, out_args := 0, args;
      if '/' in rest {
        var vec := Split(rest, '/');
        var vecIt := 0;
        while vecIt < |vec|
          invariant 0 <= vecIt <= |vec|
          invariant argsCount == |NonEmpty(vec[..vecIt])|
          invariant out_args == args + NonEmpty(vec[..vecIt])
        {
          assert vec[..vecIt + 1] == vec[..vecIt] + [vec[vecIt]];
          NonEmptyAppend(vec[..vecIt], vec[vecIt]);
          if vec[vecIt] != [] {
            out_args := out_args + [vec[vecIt]];
            argsCount := argsCount + 1;
          }
          vecIt := vecIt + 1;
        }
        assert vec[..|vec|] == vec;
      }
    }
  }
}
