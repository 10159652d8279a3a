/** boost::property_tree as GetDataTree uses it, and the tree GetDataTree builds. */
module PropertyTree {
  import opened Text
  import opened DataService

  datatype Tree = Tree(data: string, children: seq<Node>)

  datatype Node = Node(key: string, tree: Tree)

  const EMPTY := Tree("", [])

  function Leaf(data: string): Tree {
    Tree(data, [])
  }

  /** Position of the first child with a key, or the number of children. */
  function ChildAt(children: seq<Node>, key: string): (i: nat)
    ensures i <= |children| && (i < |children| ==> children[i].key == key)
    ensures forall j :: 0 <= j < i ==> children[j].key != key
  {
    if children == [] || children[0].key == key then 0 else 1 + ChildAt(children[1..], key)
  }

  /** ptree::put: set the value at a path, creating what is missing at the end of each list of children. */
  function Put(t: Tree, path: seq<string>, value: string): Tree
    decreases |path|
  {
    if path == [] then t.(data := value)
    else
      var i := ChildAt(t.children, path[0]);
      if i < |t.children| then
        t.(children := t.children[i := Node(path[0], Put(t.children[i].tree, path[1..], value))])
      else t.(children := t.children + [Node(path[0], Put(EMPTY, path[1..], value))])
  }

  /** ptree::add_child: append a subtree under the parent the path names. */
  function AddChild(t: Tree, path: seq<string>, sub: Tree): Tree
    requires path != []
    decreases |path|
  {
    if |path| == 1 then t.(children := t.children + [Node(path[0], sub)])
    else
      var i := ChildAt(t.children, path[0]);
      if i < |t.children| then
        t.(children := t.children[i := Node(path[0], AddChild(t.children[i].tree, path[1..], sub))])
      else t.(children := t.children + [Node(path[0], AddChild(EMPTY, path[1..], sub))])
  }

  /** The subtree at a path, first children first. */
  function Get(t: Tree, path: seq<string>): Option<Tree>
    decreases |path|
  {
    if path == [] then Some(t)
    else
      var i := ChildAt(t.children, path[0]);
      if i < |t.children| then Get(t.children[i].tree, path[1..]) else None
  }

  // ---------- The tree of a reply ----------

  datatype OutputType = JSON | XML

  function Key(o: OutputType, name: string): string {
    match o
    case JSON => ""
    case XML => name
  }

  function LeavesTree(o: OutputType, name: string, values: seq<string>): Tree {
    Tree("", seq(|values|, i requires 0 <= i < |values| => Node(Key(o, name), Leaf(values[i]))))
  }

  function RowsTree(o: OutputType, rows: seq<seq<string>>): Tree {
    Tree("", seq(|rows|, i requires 0 <= i < |rows| => Node(Key(o, "r"), LeavesTree(o, "c", rows[i]))))
  }

  const VERSION := Tree("", [Node("major", Leaf("1")), Node("minor", Leaf("0")),
                             Node("compat", Tree("", [Node("major", Leaf("1")), Node("minor", Leaf("0"))]))])

  /** The content of the tree, spelled out: version, date, time, titles and data under StockMarket. */
  function DataTree(o: OutputType, c: Content): Tree {
    Tree("", [Node("StockMarket", Tree("", [
      Node("version", VERSION), Node("date", Leaf(c.date)), Node("time", Leaf(c.time)),
      Node("titles", LeavesTree(o, "n", c.titles)), Node("data", RowsTree(o, c.data))]))])
  }

  /** Put and AddChild below the only child of a root. */
  lemma {:induction false} PutBelow(t: Tree, key: string, path: seq<string>, value: string)
    requires |t.children| == 1 && t.children[0].key == key && path != [] && path[0] == key
    ensures Put(t, path, value) == Tree(t.data, [Node(key, Put(t.children[0].tree, path[1..], value))])
  {
  }

  lemma {:induction false} AddBelow(t: Tree, key: string, name: string, sub: Tree)
    requires |t.children| == 1 && t.children[0].key == key
    ensures AddChild(t, [key, name], sub) ==
            Tree(t.data, [Node(key, t.children[0].tree.(children := t.children[0].tree.children + [Node(name, sub)]))])
  {
    assert [key, name][1..] == [name];
    assert AddChild(t.children[0].tree, [name], sub) ==
           t.children[0].tree.(children := t.children[0].tree.children + [Node(name, sub)]);
  }

  /** A new leaf at the end of a list of children. */
  lemma {:induction false} PutNew(t: Tree, name: string, value: string)
    requires forall n <- t.children :: n.key != name
    ensures Put(t, [name], value) == t.(children := t.children + [Node(name, Leaf(value))])
  {
    assert [name][1..] == [];
    assert Put(EMPTY, [], value) == Leaf(value);
  }

  lemma {:induction false} PutCompat(v: Tree, sub: Tree, name: string, value: string)
    requires v == Tree("", [Node("major", Leaf("1")), Node("minor", Leaf("0"))])
    ensures Put(v, ["compat", name], value) == v.(children := v.children + [Node("compat", Put(EMPTY, [name], value))])
    ensures Put(v.(children := v.children + [Node("compat", sub)]), ["compat", name], value) ==
            v.(children := v.children + [Node("compat", Put(sub, [name], value))])
  {
    assert "major"[0] == 'm' && "minor"[0] == 'm' && "compat"[0] == 'c';
    assert ["compat", name][1..] == [name];
    var w := v.(children := v.children + [Node("compat", sub)]);
    assert w.children[0] == v.children[0] && w.children[1] == v.children[1] && w.children[2].key == "compat";
    assert ChildAt(v.children, "compat") == 2 && ChildAt(w.children, "compat") == 2;
    assert w.children[2 := Node("compat", Put(sub, [name], value))] == v.children + [Node("compat", Put(sub, [name], value))];
  }

  lemma VersionSteps()
    ensures var v0 := Put(EMPTY, ["major"], "1");
            var v1 := Put(v0, ["minor"], "0");
            var v2 := Put(v1, ["compat", "major"], "1");
            Put(v2, ["compat", "minor"], "0") == VERSION
  {
    hide Put;
    assert "major"[1] == 'a' && "minor"[1] == 'i';
    PutNew(EMPTY, "major", "1");
    var v0 := Tree("", [Node("major", Leaf("1"))]);
    assert EMPTY.children + [Node("major", Leaf("1"))] == v0.children;
    PutNew(v0, "minor", "0");
    var v1 := Tree("", [Node("major", Leaf("1")), Node("minor", Leaf("0"))]);
    assert v0.children + [Node("minor", Leaf("0"))] == v1.children;
    PutCompat(v1, v0, "major", "1");
    PutCompat(v1, v0, "minor", "0");
    assert v1.children + [Node("compat", v1)] == VERSION.children;
  }

  method GetDataTree(o: OutputType, date: string, time: string, titles: seq<string>, data: seq<seq<string>>)
    returns (tree: Tree)
    ensures tree == DataTree(o, Content(date, time, titles, data))
  {
    hide Put, AddChild, LeavesTree, RowsTree;
    tree := EMPTY;
    tree := Put(tree, ["StockMarket", "version", "major"], "1");
    tree := Put(tree, ["StockMarket", "version", "minor"], "0");
    tree := Put(tree, ["StockMarket", "version", "compat", "major"], "1");
    tree := Put(tree, ["StockMarket", "version", "compat", "minor"], "0");
    VersionAtRoot();
    tree := Put(tree, ["StockMarket", "date"], date);
    tree := Put(tree, ["StockMarket", "time"], time);
    StampAtRoot(date, time);
    var titlesTree := BuildLeaves(o, "n", titles);
    AddBelow(tree, "StockMarket", "titles", titlesTree);
    tree := AddChild(tree, ["StockMarket", "titles"], titlesTree);
    var dataTree := BuildRows(o, data);
    AddBelow(tree, "StockMarket", "data", dataTree);
    tree := AddChild(tree, ["StockMarket", "data"], dataTree);
    assert tree.children[0].tree.children == DataTree(o, Content(date, time, titles, data)).children[0].tree.children;
  }

  /** The loops over titles and over the cells of a row. */
  method BuildLeaves(o: OutputType, name: string, values: seq<string>) returns (tree: Tree)
    ensures tree == LeavesTree(o, name, values)
  {
    tree := EMPTY;
    var i := 0;
    while i < |values|
      invariant 0 <= i <= |values| && tree == LeavesTree(o, name, values[..i])
    {
      LeavesAppend(o, name, values, i);
      tree := AppendLeaf(tree, o, name, values[i]);
      i := i + 1;
    }
    assert values[..|values|] == values;
  }

  /** The loop over the rows. */
  method BuildRows(o: OutputType, data: seq<seq<string>>) returns (tree: Tree)
    ensures tree == RowsTree(o, data)
  {
    tree := EMPTY;
    var row := 0;
    while row < |data|
      invariant 0 <= row <= |data| && tree == RowsTree(o, data[..row])
    {
      var rowTree := BuildLeaves(o, "c", data[row]);
      RowsAppend(o, data, row);
      tree := match o
        case JSON => tree.(children := tree.children + [Node("", rowTree)])
        case XML => AddChild(tree, ["r"], rowTree);
      row := row + 1;
    }
    assert data[..|data|] == data;
  }

  function AppendLeaf(t: Tree, o: OutputType, name: string, value: string): Tree {
    var leaf := Put(EMPTY, [], value);
    match o
    case JSON => t.(children := t.children + [Node("", leaf)])
    case XML => AddChild(t, [name], leaf)
  }

  lemma LeavesAppend(o: OutputType, name: string, values: seq<string>, i: nat)
    requires i < |values|
    ensures LeavesTree(o, name, values[..i + 1]) == AppendLeaf(LeavesTree(o, name, values[..i]), o, name, values[i])
  {
  }

  lemma RowsAppend(o: OutputType, rows: seq<seq<string>>, i: nat)
    requires i < |rows|
    ensures RowsTree(o, rows[..i + 1]) ==
            Tree("", RowsTree(o, rows[..i]).children + [Node(Key(o, "r"), LeavesTree(o, "c", rows[i]))])
  {
    hide LeavesTree;
  }

  lemma VersionAtRoot()
    ensures var t1 := Put(EMPTY, ["StockMarket", "version", "major"], "1");
            var t2 := Put(t1, ["StockMarket", "version", "minor"], "0");
            var t3 := Put(t2, ["StockMarket", "version", "compat", "major"], "1");
            Put(t3, ["StockMarket", "version", "compat", "minor"], "0") ==
            Tree("", [Node("StockMarket", Tree("", [Node("version", VERSION)]))])
  {
    var p1, p2 := ["StockMarket", "version", "major"], ["StockMarket", "version", "minor"];
    var p3, p4 := ["StockMarket", "version", "compat", "major"], ["StockMarket", "version", "compat", "minor"];
    assert p1[1..] == ["version", "major"] && p1[1..][1..] == ["major"];
    assert p2[1..] == ["version", "minor"] && p2[1..][1..] == ["minor"];
    assert p3[1..] == ["version", "compat", "major"] && p3[1..][1..] == ["compat", "major"];
    assert p4[1..] == ["version", "compat", "minor"] && p4[1..][1..] == ["compat", "minor"];
    VersionSteps();
    hide Put;
    var v0 := Put(EMPTY, ["major"], "1");
    var v1 := Put(v0, ["minor"], "0");
    var v2 := Put(v1, ["compat", "major"], "1");
    PutVersion(EMPTY, p1, "1", true);
    var t1 := Tree("", [Node("StockMarket", Tree("", [Node("version", v0)]))]);
    PutVersion(v0, p2, "0", false);
    PutVersion(v1, p3, "1", false);
    PutVersion(v2, p4, "0", false);
  }

  /** Put at a path StockMarket.version.rest, on a tree that has that version node or on the empty tree. */
  lemma {:induction false} PutVersion(v: Tree, path: seq<string>, value: string, isNew: bool)
    requires |path| >= 3 && path[0] == "StockMarket" && path[1] == "version" && (isNew ==> v == EMPTY)
    ensures var t := if isNew then EMPTY else Tree("", [Node("StockMarket", Tree("", [Node("version", v)]))]);
            Put(t, path, value) == Tree("", [Node("StockMarket", Tree("", [Node("version", Put(v, path[1..][1..], value))]))])
  {
    if !isNew {
      var s := Tree("", [Node("version", v)]);
      PutBelow(Tree("", [Node("StockMarket", s)]), "StockMarket", path, value);
      PutBelow(s, "version", path[1..], value);
    } else {
      assert Put(EMPTY, path[1..], value) == Tree("", [Node("version", Put(EMPTY, path[1..][1..], value))]);
    }
  }

  lemma {:induction false} StampAtRoot(date: string, time: string)
    ensures var t0 := Tree("", [Node("StockMarket", Tree("", [Node("version", VERSION)]))]);
            Put(Put(t0, ["StockMarket", "date"], date), ["StockMarket", "time"], time) ==
            Tree("", [Node("StockMarket", Tree("", [Node("version", VERSION), Node("date", Leaf(date)), Node("time", Leaf(time))]))])
  {
    hide Put;
    var s0 := Tree("", [Node("version", VERSION)]);
    var s1 := Tree("", [Node("version", VERSION), Node("date", Leaf(date))]);
    assert ["StockMarket", "date"][1..] == ["date"] && ["StockMarket", "time"][1..] == ["time"];
    assert "version"[0] == 'v' && "date"[0] == 'd' && "time"[0] == 't';
    PutBelow(Tree("", [Node("StockMarket", s0)]), "StockMarket", ["StockMarket", "date"], date);
    PutNew(s0, "date", date);
    assert s0.children + [Node("date", Leaf(date))] == s1.children;
    PutBelow(Tree("", [Node("StockMarket", s1)]), "StockMarket", ["StockMarket", "time"], time);
    PutNew(s1, "time", time);
    assert s1.children + [Node("time", Leaf(time))] == [Node("version", VERSION), Node("date", Leaf(date)), Node("time", Leaf(time))];
  }

  // ---------- Reading the tree ----------

  function LeafValues(t: Tree): seq<string> {
    seq(|t.children|, i requires 0 <= i < |t.children| => t.children[i].tree.data)
  }

  function RowValues(t: Tree): seq<seq<string>> {
    seq(|t.children|, i requires 0 <= i < |t.children| => LeafValues(t.children[i].tree))
  }

  /** A client's view of a reply, by the names in it. */
  function ReadTree(t: Tree): Option<Content> {
    var date, time := Get(t, ["StockMarket", "date"]), Get(t, ["StockMarket", "time"]);
    var titles, data := Get(t, ["StockMarket", "titles"]), Get(t, ["StockMarket", "data"]);
    if date.Some? && time.Some? && titles.Some? && data.Some?
    then Some(Content(date.value.data, time.value.data, LeafValues(titles.value), RowValues(data.value)))
    else None
  }

  lemma {:induction false} GetBelow(t: Tree, name: string, i: nat)
    requires |t.children| == 1 && t.children[0].key == "StockMarket" && i < |t.children[0].tree.children|
    requires t.children[0].tree.children[i].key == name
    requires forall j :: 0 <= j < i ==> t.children[0].tree.children[j].key != name
    ensures Get(t, ["StockMarket", name]) == Some(t.children[0].tree.children[i].tree)
  {
    assert ["StockMarket", name][1..] == [name] && [name][1..] == [];
    var s := t.children[0].tree;
    assert ChildAt(s.children, name) == i;
    assert Get(s, [name]) == Some(s.children[i].tree);
  }

  /** The JSON tree and the XML tree both carry exactly the date, time, titles and data. */
  lemma TreeCarriesContent(o: OutputType, c: Content)
    ensures ReadTree(DataTree(o, c)) == Some(c)
  {
    var t := DataTree(o, c);
    assert "version"[0] == 'v' && "date"[0] == 'd' && "date"[2] == 't' && "time"[0] == 't' && "time"[1] == 'i';
    assert |"titles"| == 6 && |"data"| == 4 && "data"[3] == 'a' && "date"[3] == 'e' && |"time"| == 4;
    hide Get, LeavesTree, RowsTree;
    GetBelow(t, "date", 1);
    GetBelow(t, "time", 2);
    GetBelow(t, "titles", 3);
    GetBelow(t, "data", 4);
    LeavesReadBack(o, "n", c.titles);
    RowsReadBack(o, c.data);
  }

  lemma LeavesReadBack(o: OutputType, name: string, values: seq<string>)
    ensures LeafValues(LeavesTree(o, name, values)) == values
  {
  }

  lemma RowsReadBack(o: OutputType, rows: seq<seq<string>>)
    ensures RowValues(RowsTree(o, rows)) == rows
  {
    hide LeavesTree, LeafValues;
    forall i | 0 <= i < |rows|
      ensures LeafValues(LeavesTree(o, "c", rows[i])) == rows[i]
    {
      LeavesReadBack(o, "c", rows[i]);
    }
  }

  // ---------- The names in the tree ----------

  ghost predicate ChildrenNamed(t: Tree, name: string) {
    forall i :: 0 <= i < |t.children| ==> t.children[i].key == name
  }

  /** The titles are named `n`, the rows `r` and the cells `c`. */
  ghost predicate IsNamed(t: Tree, n: string, r: string, c: string) {
    var titles, data := Get(t, ["StockMarket", "titles"]), Get(t, ["StockMarket", "data"]);
    titles.Some? && ChildrenNamed(titles.value, n) && data.Some? && ChildrenNamed(data.value, r) &&
    forall i :: 0 <= i < |data.value.children| ==> ChildrenNamed(data.value.children[i].tree, c)
  }

  /** In JSON all of them are nameless, which makes them arrays; in XML they are elements n, r and c. */
  lemma TreeIsNamed(o: OutputType, c: Content)
    ensures o == JSON ==> IsNamed(DataTree(o, c), "", "", "")
    ensures o == XML ==> IsNamed(DataTree(o, c), "n", "r", "c")
  {
    var t := DataTree(o, c);
    assert |"titles"| == 6 && |"data"| == 4 && "data"[3] == 'a' && "date"[3] == 'e' && |"time"| == 4 && |"version"| == 7;
    assert "time"[0] == 't' && "data"[0] == 'd';
    hide Get, LeavesTree, RowsTree;
    GetBelow(t, "titles", 3);
    GetBelow(t, "data", 4);
    LeavesAreNamed(o, "n", c.titles);
    RowsAreNamed(o, c.data);
  }

  lemma LeavesAreNamed(o: OutputType, name: string, values: seq<string>)
    ensures ChildrenNamed(LeavesTree(o, name, values), if o == JSON then "" else name)
  {
  }

  lemma RowsAreNamed(o: OutputType, rows: seq<seq<string>>)
    ensures var t := RowsTree(o, rows);
            ChildrenNamed(t, if o == JSON then "" else "r") &&
            forall i :: 0 <= i < |t.children| ==> ChildrenNamed(t.children[i].tree, if o == JSON then "" else "c")
  {
    hide LeavesTree, ChildrenNamed;
    var t := RowsTree(o, rows);
    assert ChildrenNamed(t, if o == JSON then "" else "r") by { NamesOfRows(o, rows); }
    forall i | 0 <= i < |t.children|
      ensures ChildrenNamed(t.children[i].tree, if o == JSON then "" else "c")
    {
      LeavesAreNamed(o, "c", rows[i]);
    }
  }

  lemma NamesOfRows(o: OutputType, rows: seq<seq<string>>)
    ensures ChildrenNamed(RowsTree(o, rows), if o == JSON then "" else "r")
  {
    hide LeavesTree;
  }

  /** Every reply states version 1.0, compatible with 1.0. */
  lemma TreeStatesVersion(o: OutputType, c: Content)
    ensures var t := DataTree(o, c);
            Get(t, ["StockMarket", "version", "major"]) == Some(Leaf("1")) &&
            Get(t, ["StockMarket", "version", "minor"]) == Some(Leaf("0")) &&
            Get(t, ["StockMarket", "version", "compat", "major"]) == Some(Leaf("1")) &&
            Get(t, ["StockMarket", "version", "compat", "minor"]) == Some(Leaf("0"))
  {
    var t := DataTree(o, c);
    hide LeavesTree, RowsTree;
    assert "major"[1] == 'a' && "minor"[1] == 'i' && |"compat"| == 6 && |"major"| == 5 && |"minor"| == 5;
    var v := VERSION.children[2].tree;
    VersionPath(t, "major", 0);
    VersionPath(t, "minor", 1);
    CompatPath(t, "major", 0);
    CompatPath(t, "minor", 1);
  }

  lemma {:induction false} VersionPath(t: Tree, name: string, i: nat)
    requires |t.children| == 1 && t.children[0].key == "StockMarket" && t.children[0].tree.children != []
    requires t.children[0].tree.children[0] == Node("version", VERSION)
    requires i < 3 && VERSION.children[i].key == name && forall j :: 0 <= j < i ==> VERSION.children[j].key != name
    ensures Get(t, ["StockMarket", "version", name]) == Some(VERSION.children[i].tree)
  {
    var p := ["StockMarket", "version", name];
    assert p[1..] == ["version", name] && p[1..][1..] == [name] && p[1..][1..][1..] == [];
    assert ChildAt(VERSION.children, name) == i;
    assert Get(VERSION, [name]) == Some(VERSION.children[i].tree);
    assert Get(t.children[0].tree, ["version", name]) == Get(VERSION, [name]);
  }

  lemma {:induction false} CompatPath(t: Tree, name: string, i: nat)
    requires |t.children| == 1 && t.children[0].key == "StockMarket" && t.children[0].tree.children != []
    requires t.children[0].tree.children[0] == Node("version", VERSION)
    requires var v := VERSION.children[2].tree;
             i < 2 && v.children[i].key == name && forall j :: 0 <= j < i ==> v.children[j].key != name
    ensures Get(t, ["StockMarket", "version", "compat", name]) == Some(VERSION.children[2].tree.children[i].tree)
  {
    var p := ["StockMarket", "version", "compat", name];
    var v := VERSION.children[2].tree;
    assert p[1..] == ["version", "compat", name] && p[1..][1..] == ["compat", name];
    assert p[1..][1..][1..] == [name] && [name][1..] == [];
    assert "major"[0] == 'm' && "minor"[0] == 'm' && "compat"[0] == 'c';
    assert ChildAt(VERSION.children, "compat") == 2 && ChildAt(v.children, name) == i;
    assert Get(v, [name]) == Some(v.children[i].tree);
    assert Get(VERSION, ["compat", name]) == Get(v, [name]);
    assert Get(t.children[0].tree, ["version", "compat", name]) == Get(VERSION, ["compat", name]);
  }
}
