/** Templates seen as lists of segments: the key computation agrees with splitting, and a URI built from
    a template resolves back to that template and its arguments. */
module UriTemplates {
  import opened Text
  import opened ServiceContract
  import opened Routing

  datatype Segment = Literal(text: string) | Parameter(name: string) {
    function Render(): string {
      match this
      case Literal(text) => text
      case Parameter(name) => "{" + name + "}"
    }

    predicate WellFormed() {
      match this
      case Literal(text) => '/' !in text && (text != [] ==> text[0] != '{')
      case Parameter(name) => '/' !in name && '}' !in name
    }
  }

  function Renders(segments: seq<Segment>): seq<string> {
    if segments == [] then [] else [segments[0].Render()] + Renders(segments[1..])
  }

  function Template(segments: seq<Segment>): string {
    Join(Renders(segments), '/')
  }

  function Literals(segments: seq<Segment>): seq<Segment> {
    if segments == [] then []
    else (if segments[0].Literal? then [segments[0]] else []) + Literals(segments[1..])
  }

  function ParameterCount(segments: seq<Segment>): nat {
    if segments == [] then 0
    else (if segments[0].Parameter? then 1 else 0) + ParameterCount(segments[1..])
  }

  predicate WellFormedTemplate(segments: seq<Segment>) {
    |segments| >= 1 && segments[0].Literal? && forall i :: 0 <= i < |segments| ==> segments[i].WellFormed()
  }

  /** The segments after the first, each with the slash in front of it. */
  function Tail(parts: seq<string>): string {
    if parts == [] then "" else "/" + parts[0] + Tail(parts[1..])
  }

  lemma {:induction false} JoinIsTail(parts: seq<string>)
    requires |parts| >= 1
    ensures Join(parts, '/') == parts[0] + Tail(parts[1..])
  {
    if |parts| > 1 {
      JoinIsTail(parts[1..]);
      assert parts[0] + ['/'] + (parts[1] + Tail(parts[2..])) == parts[0] + ("/" + parts[1] + Tail(parts[2..]));
      assert parts[1..][1..] == parts[2..];
    }
  }

  // ---------- The scan, segment by segment ----------

  lemma {:induction false} ScanText(text: string, rest: string)
    requires '/' !in text
    ensures OmitParameters(text + rest) == text + OmitParameters(rest)
    ensures CountOmitted(text + rest) == CountOmitted(rest)
  {
    var s := text + rest;
    if text == [] {
      assert s == rest;
    } else {
      assert s[0] == text[0] && s[1..] == text[1..] + rest;
      ScanText(text[1..], rest);
      assert [text[0]] + (text[1..] + OmitParameters(rest)) == text + OmitParameters(rest);
    }
  }

  lemma NoParameterHere(text: string, rest: string)
    requires Literal(text).WellFormed()
    requires rest == [] || rest[0] == '/'
    ensures !StartsParameter("/" + text + rest)
  {
    var s := "/" + text + rest;
    assert |s| >= 2 ==> s[1] == if text == [] then rest[0] else text[0];
  }

  lemma {:induction false} ScanOne(s: string)
    requires s != [] && !StartsParameter(s)
    ensures OmitParameters(s) == [s[0]] + OmitParameters(s[1..]) && CountOmitted(s) == CountOmitted(s[1..])
  {
  }

  lemma {:induction false} ScanLiteral(text: string, rest: string)
    requires Literal(text).WellFormed()
    requires rest == [] || rest[0] == '/'
    ensures OmitParameters("/" + text + rest) == "/" + text + OmitParameters(rest)
    ensures CountOmitted("/" + text + rest) == CountOmitted(rest)
  {
    hide OmitParameters, CountOmitted;
    var s := "/" + text + rest;
    assert s[0] == '/' && s[1..] == text + rest;
    NoParameterHere(text, rest);
    ScanOne(s);
    ScanText(text, rest);
    assert ['/'] + (text + OmitParameters(rest)) == "/" + text + OmitParameters(rest);
  }

  lemma {:induction false} ScanParameter(name: string, rest: string)
    requires '}' !in name
    ensures OmitParameters("/" + ("{" + name + "}") + rest) == OmitParameters(rest)
    ensures CountOmitted("/" + ("{" + name + "}") + rest) == 1 + CountOmitted(rest)
  {
    var s := "/" + ("{" + name + "}") + rest;
    assert s[2..] == name + "}" + rest;
    assert s[2..][|name|] == '}';
    assert StartsParameter(s);
    var i := IndexOf(s[2..], '}');
    assert forall j :: 0 <= j < i ==> s[2..][..i][j] == s[2..][j];
    assert i == |name|;
    assert s[3 + i..] == rest;
  }

  lemma {:induction false} ScanTail(segments: seq<Segment>)
    requires forall i :: 0 <= i < |segments| ==> segments[i].WellFormed()
    ensures OmitParameters(Tail(Renders(segments))) == Tail(Renders(Literals(segments)))
    ensures CountOmitted(Tail(Renders(segments))) == ParameterCount(segments)
  {
    if segments != [] {
      var first, rest := segments[0], segments[1..];
      ScanTail(rest);
      var tail := Tail(Renders(rest));
      assert Renders(segments)[1..] == Renders(rest);
      assert Tail(Renders(segments)) == "/" + first.Render() + tail;
      match first
      case Literal(text) =>
        ScanLiteral(text, tail);
        assert Literals(segments) == [first] + Literals(rest);
        assert Literals(segments)[1..] == Literals(rest);
        assert Renders(Literals(segments))[1..] == Renders(Literals(rest));
      case Parameter(name) =>
        ScanParameter(name, tail);
        assert Literals(segments) == Literals(rest);
    }
  }

  lemma {:induction false} RendersAreParts(segments: seq<Segment>)
    requires forall i :: 0 <= i < |segments| ==> segments[i].WellFormed()
    ensures forall i :: 0 <= i < |Renders(segments)| ==> '/' !in Renders(segments)[i]
    ensures |Renders(segments)| == |segments|
    ensures CountParameters(Renders(segments)) == ParameterCount(segments)
  {
    if segments != [] {
      RendersAreParts(segments[1..]);
      var p := segments[0].Render();
      assert Renders(segments)[1..] == Renders(segments[1..]);
      assert IsParameter(p) <==> segments[0].Parameter? by {
        if segments[0].Parameter? {
          assert p[..1] == "{" && p[|p| - 1..] == "}";
        } else {
          assert p != [] ==> p[..1] == [p[0]];
          assert !("{" <= p);
        }
      }
    }
  }

  /** The key is the template without its parameter segments, and the number of segments the scan
      removes is the number of parameters counted by splitting. */
  lemma {:induction false} KeyIsTheLiterals(segments: seq<Segment>)
    requires WellFormedTemplate(segments)
    ensures OmitParameters(Template(segments)) == Template(Literals(segments))
    ensures CountOmitted(Template(segments)) == CountParameters(Split(Template(segments), '/')) == ParameterCount(segments)
  {
    var first, rest := segments[0], segments[1..];
    RendersAreParts(segments);
    SplitJoin(Renders(segments), '/');
    JoinIsTail(Renders(segments));
    assert Renders(segments)[1..] == Renders(rest);
    ScanTail(rest);
    ScanText(first.text, Tail(Renders(rest)));
    assert Literals(segments) == [first] + Literals(rest);
    assert Literals(segments)[1..] == Literals(rest);
    assert Renders(Literals(segments))[1..] == Renders(Literals(rest));
    JoinIsTail(Renders(Literals(segments)));
  }

  // ---------- From a template to a URI and back ----------

  /** A part of a URI that splitting gives back as one argument. */
  predicate GoodPart(s: string) {
    s != [] && '/' !in s
  }

  predicate GoodArguments(args: seq<string>) {
    forall i :: 0 <= i < |args| ==> GoodPart(args[i])
  }

  /** The URI of a template whose parameters follow its literals, with `args` in their place. */
  function Instantiate(segments: seq<Segment>, args: seq<string>): string {
    Template(Literals(segments)) + Tail(args)
  }

  lemma {:induction false} NonEmptyKeepsAll(args: seq<string>)
    requires GoodArguments(args)
    ensures NonEmpty(args) == args
  {
    if args != [] { NonEmptyKeepsAll(args[1..]); }
  }

  lemma {:induction false} TailSplits(args: seq<string>)
    requires GoodArguments(args) && args != []
    ensures Split(Tail(args), '/') == [""] + args && Tail(args) != [] && Tail(args)[0] == '/'
  {
    var parts := [""] + args;
    JoinIsTail(parts);
    assert parts[1..] == args && Join(parts, '/') == Tail(args);
    hide Split, Join;
    SplitJoin(parts, '/');
  }

  lemma {:induction false} ArgumentsOfTail(args: seq<string>)
    requires GoodArguments(args)
    ensures Arguments(Tail(args)) == args
    ensures args != [] ==> !EndsWith(Tail(args), "/")
  {
    assert args != [] ==> NonEmpty([""] + args) == NonEmpty(([""] + args)[1..]) && ([""] + args)[1..] == args;
    hide Split, NonEmpty;
    if args == [] {
      assert Tail(args) == "";
    } else {
      hide Tail;
      TailSplits(args);
      NonEmptyKeepsAll(args);
      LastOfTail(args);
      var t := Tail(args);
      assert t[|t| - 1..] == [t[|t| - 1]];
    }
  }

  lemma {:induction false} LastOfTail(args: seq<string>)
    requires GoodArguments(args) && args != []
    ensures var t := Tail(args); t != [] && t[|t| - 1] != '/'
  {
    if |args| > 1 { LastOfTail(args[1..]); } else { assert Tail(args) == "/" + args[0] + ""; }
  }

  /** Instantiating a registered template and resolving the URI gives back the template and exactly the
      arguments, provided no registered key is a prefix of another. A URI without arguments must not end
      in a slash, which Resolve refuses. */
  lemma {:induction false} InstantiateThenResolve(contracts: seq<Contract>, k: nat, segments: seq<Segment>, args: seq<string>)
    requires k < |contracts| && contracts[k] == MakeContract(Template(segments)) && PrefixFree(contracts)
    requires WellFormedTemplate(segments) && GoodArguments(args) && |args| == ParameterCount(segments)
    requires args == [] ==> !EndsWith(Template(Literals(segments)), "/")
    ensures Resolved(contracts, Instantiate(segments, args), []) == Resolution(true, Template(segments), args)
  {
    hide Arguments, Template, OmitParameters, Split, CountParameters, Tail;
    var uri, key := Instantiate(segments, args), contracts[k].key;
    KeyIsTheLiterals(segments);
    ArgumentsOfTail(args);
    TailIsEmpty(args);
    assert uri[|key|..] == Tail(args);
    assert Matches(contracts[k], uri);
    OnlyCandidate(contracts, uri, k);
    if args == [] {
      assert uri == key;
    } else {
      assert uri[|uri| - 1..] == Tail(args)[|Tail(args)| - 1..];
    }
  }

  /** There is no segment boundary after a key: slash-free text glued to the key of a template without
      parameters still resolves to that template. */
  lemma TextGluedToKeyResolves(contracts: seq<Contract>, k: nat, glued: string)
    requires k < |contracts| && contracts[k].argsCount == 0 && PrefixFree(contracts)
    requires '/' !in glued && !EndsWith(contracts[k].key + glued, "/")
    ensures Resolved(contracts, contracts[k].key + glued, []) == Resolution(true, contracts[k].uriTemplate, [])
  {
    var uri := contracts[k].key + glued;
    assert uri[|contracts[k].key|..] == glued;
    OnlyCandidate(contracts, uri, k);
  }

  lemma {:induction false} TailIsEmpty(args: seq<string>)
    ensures Tail(args) == [] <==> args == []
  {
  }

  // ---------- Any number of slashes ----------

  function Slashes(n: nat): string {
    if n == 0 then "" else "/" + Slashes(n - 1)
  }

  /** The arguments, each with its own number of slashes in front of it. */
  function Spread(args: seq<string>, slashes: seq<nat>): string
    requires |args| == |slashes|
  {
    if args == [] then "" else Slashes(slashes[0]) + args[0] + Spread(args[1..], slashes[1..])
  }

  lemma {:induction false} SlashesAreSkipped(n: nat, rest: string)
    ensures NonEmpty(Split(Slashes(n) + rest, '/')) == NonEmpty(Split(rest, '/'))
  {
    if n == 0 {
      assert Slashes(n) + rest == rest;
    } else {
      var s := Slashes(n - 1) + rest;
      assert Slashes(n) + rest == "" + ['/'] + s;
      SplitAtSeparator("", s, '/');
      assert ([""] + Split(s, '/'))[1..] == Split(s, '/');
      SlashesAreSkipped(n - 1, rest);
    }
  }

  lemma {:induction false} SpreadParts(args: seq<string>, slashes: seq<nat>)
    requires |args| == |slashes| && GoodArguments(args) && forall i :: 0 <= i < |slashes| ==> slashes[i] >= 1
    ensures NonEmpty(Split(Spread(args, slashes), '/')) == args
    ensures args != [] ==> Spread(args, slashes) != [] && Spread(args, slashes)[0] == '/'
    ensures args != [] ==> var s := Spread(args, slashes); s[|s| - 1] != '/'
  {
    if args == [] {
      assert NonEmpty([""]) == NonEmpty([""][1..]) == [];
    } else {
      var rest := Spread(args[1..], slashes[1..]);
      assert Spread(args, slashes) == Slashes(slashes[0]) + args[0] + rest == Slashes(slashes[0]) + (args[0] + rest);
      assert Slashes(slashes[0])[0] == '/' && GoodPart(args[0]);
      RestIsGood(args);
      hide Split, NonEmpty, Slashes, Spread, GoodArguments;
      SpreadParts(args[1..], slashes[1..]);
      SlashesAreSkipped(slashes[0], args[0] + rest);
      ArgumentBeforeRest(args[0], rest);
      assert [args[0]] + args[1..] == args;
      if args[1..] == [] {
        EmptySpread(slashes[1..]);
        assert Slashes(slashes[0]) + args[0] + "" == Slashes(slashes[0]) + args[0];
      }
    }
  }

  lemma {:induction false} EmptySpread(slashes: seq<nat>)
    requires slashes == []
    ensures Spread([], slashes) == ""
  {
  }

  lemma RestIsGood(args: seq<string>)
    requires GoodArguments(args) && args != []
    ensures GoodArguments(args[1..])
  {
    assert forall i :: 0 <= i < |args| - 1 ==> args[1..][i] == args[i + 1];
  }

  lemma {:induction false} ArgumentBeforeRest(arg: string, rest: string)
    requires GoodPart(arg) && (rest == [] || rest[0] == '/')
    ensures NonEmpty(Split(arg + rest, '/')) == [arg] + NonEmpty(Split(rest, '/'))
  {
    if rest == [] {
      assert arg + rest == arg;
      SplitFree(arg, '/');
      assert [arg][1..] == [] && NonEmpty([""]) == NonEmpty([""][1..]) == [];
    } else {
      assert arg + rest == arg + ['/'] + rest[1..];
      assert "" + ['/'] + rest[1..] == rest;
      SplitAtSeparator(arg, rest[1..], '/');
      SplitAtSeparator("", rest[1..], '/');
      var parts := Split(rest[1..], '/');
      assert ([arg] + parts)[1..] == parts && ([""] + parts)[1..] == parts;
    }
  }

  /** However many slashes stand before each argument, the URI resolves to the template and its arguments. */
  lemma {:induction false} SpreadThenResolve(contracts: seq<Contract>, k: nat, args: seq<string>, slashes: seq<nat>)
    requires k < |contracts| && PrefixFree(contracts) && contracts[k].argsCount == |args| && args != []
    requires GoodArguments(args) && |slashes| == |args| && forall i :: 0 <= i < |slashes| ==> slashes[i] >= 1
    ensures Resolved(contracts, contracts[k].key + Spread(args, slashes), []) ==
            Resolution(true, contracts[k].uriTemplate, args)
  {
    hide Split, NonEmpty, Spread;
    var key, rest := contracts[k].key, Spread(args, slashes);
    var uri := key + rest;
    SpreadParts(args, slashes);
    assert uri[|key|..] == rest && uri[|uri| - 1..] == [rest[|rest| - 1]];
    OnlyCandidate(contracts, uri, k);
  }

  /** Text glued to a key is one more argument once a slash follows it. */
  lemma {:induction false} GluedTextIsAnArgument(glued: string, args: seq<string>, slashes: seq<nat>)
    requires GoodPart(glued) && args != [] && GoodArguments(args)
    requires |slashes| == |args| && forall i :: 0 <= i < |slashes| ==> slashes[i] >= 1
    ensures Arguments(glued + Spread(args, slashes)) == [glued] + args
  {
    hide Split, NonEmpty, Spread;
    SpreadParts(args, slashes);
    ArgumentBeforeRest(glued, Spread(args, slashes));
    assert (glued + Spread(args, slashes))[|glued|] == '/';
  }

  // ---------- Templates that are not well formed ----------

  /** A part counts as a parameter exactly when it begins with an opening and ends with a closing brace. */
  lemma ParameterExactly(part: string)
    ensures IsParameter(part) <==> part != [] && part[0] == '{' && part[|part| - 1] == '}'
  {
    if part != [] {
      assert part[..1] == [part[0]] && part[|part| - 1..] == [part[|part| - 1]];
      assert "{" <= part <==> part[..1] == "{";
    }
  }

  /** Text behind the closing brace of a parameter: the scan cuts the parameter out of the key, but the part is
      not counted, so that the key and the number of arguments disagree. */
  lemma CutButNotCounted(front: string, name: string, glued: string)
    requires '/' !in front && '/' !in name && '}' !in name && '/' !in glued && glued != [] && glued[|glued| - 1] != '}'
    requires front == [] || front[0] != '{'
    ensures MakeContract(front + ("/" + ("{" + name + "}") + glued)).key == front + glued
    ensures MakeContract(front + ("/" + ("{" + name + "}") + glued)).argsCount == 0
  {
    hide OmitParameters, CountOmitted, Split, CountParameters;
    GluedIsCut(front, name, glued);
    GluedIsNotCounted(front, name, glued);
  }

  lemma {:induction false} GluedIsCut(front: string, name: string, glued: string)
    requires '/' !in front && '}' !in name && '/' !in glued
    ensures OmitParameters(front + ("/" + ("{" + name + "}") + glued)) == front + glued
  {
    assert OmitParameters("") == "" && glued + "" == glued;
    hide OmitParameters, CountOmitted;
    ScanText(front, "/" + ("{" + name + "}") + glued);
    ScanParameter(name, glued);
    ScanText(glued, "");
  }

  lemma {:induction false} GluedIsNotCounted(front: string, name: string, glued: string)
    requires '/' !in front && '/' !in name && '/' !in glued && glued != [] && glued[|glued| - 1] != '}'
    requires front == [] || front[0] != '{'
    ensures CountParameters(Split(front + ("/" + ("{" + name + "}") + glued), '/')) == 0
  {
    var part := "{" + name + "}" + glued;
    assert front + ("/" + ("{" + name + "}") + glued) == front + ['/'] + part;
    assert part[|part| - 1] == glued[|glued| - 1];
    hide Split, IsParameter;
    SplitAtSeparator(front, part, '/');
    SplitFree(part, '/');
    ParameterExactly(front);
    ParameterExactly(part);
    var parts := [front] + [part];
    assert parts[1..] == [part] && parts[1..][1..] == [] && [part][1..] == [];
    assert CountParameters([part]) == 0;
  }
}
