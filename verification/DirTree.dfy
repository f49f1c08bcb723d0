/** The directory tree of the virtual file system and path resolution (kernel/fs/vfs.c). */
module DirTree {
  import opened KernelBase
  import opened CString

  const NAME_MAX := 63

  /** Nodes are numbered; kids lists the children of each node in order. */
  datatype Tree = Tree(isDir: seq<bool>, names: seq<string>, parent: seq<int>, kids: seq<seq<int>>, root: int)

  predicate Sizes(t: Tree) {
    && |t.names| == |t.parent| == |t.kids| == |t.isDir|
    && 0 <= t.root < |t.isDir|
  }

  predicate IsNode(t: Tree, n: int) {
    0 <= n < |t.kids|
  }

  predicate NoDuplicates(s: seq<int>) {
    forall i, j :: 0 <= i < j < |s| ==> s[i] != s[j]
  }

  predicate HasParent(t: Tree, c: int, d: int) {
    0 <= c < |t.parent| && t.parent[c] == d
  }

  /** Children point back to their directory, so no node is in two lists; the root is in none. */
  predicate Inv(t: Tree) {
    && Sizes(t) && t.isDir[t.root] && t.parent[t.root] == NULL
    && (forall c :: 0 <= c < |t.parent| ==> t.parent[c] == NULL || IsNode(t, t.parent[c]))
    && (forall d :: 0 <= d < |t.kids| ==> NoDuplicates(t.kids[d]) && (t.kids[d] != [] ==> t.isDir[d]))
    && (forall d, i :: 0 <= d < |t.kids| && 0 <= i < |t.kids[d]| ==> HasParent(t, t.kids[d][i], d))
  }

  /** A node in no list. */
  predicate Unlisted(t: Tree, c: int) {
    forall d, i :: 0 <= d < |t.kids| && 0 <= i < |t.kids[d]| ==> t.kids[d][i] != c
  }

  /** A node in no list that is not the root. */
  predicate Loose(t: Tree, c: int)
    requires Sizes(t)
  {
    IsNode(t, c) && c != t.root && Unlisted(t, c)
  }

  // ---------------------------------------------------------------- changing the tree

  function Initial(): Tree {
    Tree([true], ["/"], [NULL], [[]], 0)
  }

  /** strncpy into the name field keeps at most 63 characters. */
  function StoredName(name: string): string {
    if |name| <= NAME_MAX then name else name[..NAME_MAX]
  }

  function Created(t: Tree, name: string, isDir: bool, parent: int): Tree {
    Tree(t.isDir + [isDir], t.names + [StoredName(name)], t.parent + [parent], t.kids + [[]], t.root)
  }

  function Added(t: Tree, d: nat, c: nat): Tree
    requires Sizes(t) && IsNode(t, d) && IsNode(t, c)
  {
    if !t.isDir[d] then t else t.(parent := t.parent[c := d], kids := t.kids[d := t.kids[d] + [c]])
  }

  /** The position of c in s. */
  function IndexOf(s: seq<int>, c: int): (k: nat)
    requires c in s
    ensures k < |s| && s[k] == c
  {
    if s[0] == c then 0 else 1 + IndexOf(s[1..], c)
  }

  function Without(s: seq<int>, c: int): seq<int>
    requires c in s
  {
    var k := IndexOf(s, c);
    s[..k] + s[k + 1..]
  }

  function Removed(t: Tree, d: nat, c: nat): Tree
    requires Sizes(t) && IsNode(t, d) && IsNode(t, c) && (t.isDir[d] ==> c in t.kids[d])
  {
    if !t.isDir[d] then t else t.(parent := t.parent[c := NULL], kids := t.kids[d := Without(t.kids[d], c)])
  }

  /** The tree without c among anyone's children, and c without a parent. */
  function Dropped(t: Tree, c: nat): Tree
    requires Sizes(t) && IsNode(t, c)
  {
    var e := t.parent[c];
    if IsNode(t, e) && t.isDir[e] && c in t.kids[e] then Removed(t, e, c) else t.(parent := t.parent[c := NULL])
  }

  lemma CreatedInv(t: Tree, name: string, isDir: bool, parent: int)
    requires Inv(t) && (parent == NULL || IsNode(t, parent))
    ensures Inv(Created(t, name, isDir, parent))
  {
    var u := Created(t, name, isDir, parent);
    forall d, i | 0 <= d < |u.kids| && 0 <= i < |u.kids[d]| ensures HasParent(u, u.kids[d][i], d) {
      assert d < |t.kids| && u.kids[d] == t.kids[d];
      assert HasParent(t, t.kids[d][i], d);
    }
  }

  /** A loose node may be added to any directory. */
  lemma AddedInv(t: Tree, d: nat, c: nat)
    requires Inv(t) && IsNode(t, d) && Loose(t, c)
    ensures Inv(Added(t, d, c))
  {
    var u := Added(t, d, c);
    forall e, i | 0 <= e < |u.kids| && 0 <= i < |u.kids[e]| ensures HasParent(u, u.kids[e][i], e) {
      if i < |t.kids[e]| { assert HasParent(t, t.kids[e][i], e) && t.kids[e][i] == u.kids[e][i]; }
    }
  }

  /** Adding keeps every child under exactly one directory exactly when the node is loose. */
  lemma AddKeeps(t: Tree, d: nat, c: nat)
    requires Inv(t) && IsNode(t, d) && IsNode(t, c) && t.isDir[d]
    ensures Inv(Added(t, d, c)) <==> Loose(t, c)
  {
    if Loose(t, c) {
      AddedInv(t, d, c);
    } else if c != t.root {
      var e, i :| 0 <= e < |t.kids| && 0 <= i < |t.kids[e]| && t.kids[e][i] == c;
      AddTwice(t, d, c, e, i);
    }
  }

  lemma AddTwice(t: Tree, d: nat, c: nat, e: nat, i: nat)
    requires Inv(t) && IsNode(t, d) && IsNode(t, c) && t.isDir[d]
    requires IsNode(t, e) && i < |t.kids[e]| && t.kids[e][i] == c
    ensures !Inv(Added(t, d, c))
  {
    var u := Added(t, d, c);
    if e == d {
      assert u.kids[d][i] == u.kids[d][|t.kids[d]|] == c;
      assert !NoDuplicates(u.kids[d]);
    } else {
      assert u.kids[e][i] == c && u.parent[c] == d;
      assert !HasParent(u, u.kids[e][i], e);
    }
  }

  lemma RemovedInv(t: Tree, d: nat, c: nat)
    requires Inv(t) && IsNode(t, d) && IsNode(t, c) && c in t.kids[d]
    ensures Inv(Removed(t, d, c)) && Loose(Removed(t, d, c), c)
  {
    var u := Removed(t, d, c);
    var k := IndexOf(t.kids[d], c);
    forall e, i | 0 <= e < |u.kids| && 0 <= i < |u.kids[e]| ensures HasParent(u, u.kids[e][i], e) && u.kids[e][i] != c {
      var j := if e == d && i >= k then i + 1 else i;
      assert HasParent(t, t.kids[e][j], e) && u.kids[e][i] == t.kids[e][j];
      assert HasParent(t, t.kids[d][k], d);
    }
  }

  /** Removing what was just added leaves the lists as they were and the node loose. */
  lemma RemoveUndoesAdd(t: Tree, d: nat, c: nat)
    requires Inv(t) && IsNode(t, d) && t.isDir[d] && Loose(t, c)
    ensures c in Added(t, d, c).kids[d]
    ensures Removed(Added(t, d, c), d, c) == t.(parent := t.parent[c := NULL])
  {
    var s := t.kids[d] + [c];
    assert s[|t.kids[d]|] == c;
    assert forall i :: 0 <= i < |t.kids[d]| ==> t.kids[d][i] == s[i] && s[i] != c;
    assert Without(s, c) == t.kids[d];
    assert t.kids[d := s][d := t.kids[d]] == t.kids;
  }

  /** A child that is dropped leaves the list of its parent, the only one it is in. */
  lemma DroppedInv(t: Tree, c: nat)
    requires Inv(t) && IsNode(t, c)
    ensures Inv(Dropped(t, c)) && Unlisted(Dropped(t, c), c)
    ensures forall d :: 0 <= d < |t.kids| && c in t.kids[d] ==>
              t.parent[c] == d && t.isDir[d] && Dropped(t, c) == Removed(t, d, c)
    ensures Unlisted(t, c) <==> !(IsNode(t, t.parent[c]) && c in t.kids[t.parent[c]])
  {
    var e := t.parent[c];
    forall d, i | 0 <= d < |t.kids| && 0 <= i < |t.kids[d]| && t.kids[d][i] == c ensures d == e {
      assert HasParent(t, t.kids[d][i], d);
    }
    if IsNode(t, e) && c in t.kids[e] {
      RemovedInv(t, e, c);
    } else {
      var u := Dropped(t, c);
      assert Unlisted(t, c);
      forall d, i | 0 <= d < |u.kids| && 0 <= i < |u.kids[d]| ensures HasParent(u, u.kids[d][i], d) {
        assert HasParent(t, t.kids[d][i], d);
      }
    }
  }

  // ---------------------------------------------------------------- paths

  const SLASH := ['/']

  /** The first child of the list with this name, or NULL. */
  function FirstNamed(t: Tree, s: seq<int>, name: string): (n: int)
    requires forall i :: 0 <= i < |s| ==> 0 <= s[i] < |t.names|
    ensures n == NULL <==> forall i :: 0 <= i < |s| ==> t.names[s[i]] != name
    ensures n != NULL ==> n in s && t.names[n] == name
  {
    if s == [] then NULL
    else if t.names[s[0]] == name then s[0]
    else
      assert forall i :: 0 < i < |s| ==> s[i] == s[1..][i - 1];
      FirstNamed(t, s[1..], name)
  }

  function ChildNamed(t: Tree, d: nat, name: string): int
    requires Inv(t) && IsNode(t, d)
  {
    if !t.isDir[d] then NULL else
      assert forall i :: 0 <= i < |t.kids[d]| ==> HasParent(t, t.kids[d][i], d);
      FirstNamed(t, t.kids[d], name)
  }

  /** Where one component of a path leads from a node, NULL if nowhere. */
  function Step(t: Tree, cur: nat, token: string): (n: int)
    requires Inv(t) && IsNode(t, cur)
    ensures n == NULL || IsNode(t, n)
  {
    if token == "." then cur
    else if token == ".." then (if t.parent[cur] != NULL then t.parent[cur] else cur)
    else
      var n := ChildNamed(t, cur, token);
      assert n != NULL ==> HasParent(t, n, cur) by { if n != NULL { Listed(t, cur, n); } }
      n
  }

  lemma Listed(t: Tree, d: nat, c: int)
    requires Inv(t) && IsNode(t, d) && c in t.kids[d]
    ensures HasParent(t, c, d)
  {
    var i :| 0 <= i < |t.kids[d]| && t.kids[d][i] == c;
  }

  function Walk(t: Tree, cur: nat, tokens: seq<string>): (n: int)
    requires Inv(t) && IsNode(t, cur)
    ensures n == NULL || IsNode(t, n)
    decreases |tokens|
  {
    if tokens == [] then cur
    else
      var n := Step(t, cur, tokens[0]);
      if n == NULL then NULL else Walk(t, n, tokens[1..])
  }

  /** resolve_path: absolute paths start at the root, the others at the working directory. */
  function Resolve(t: Tree, cwd: nat, path: string): int
    requires Inv(t) && IsNode(t, cwd)
  {
    if path != "" && path[0] == '/' then Walk(t, t.root, Tokens(path[1..], SLASH))
    else Walk(t, cwd, Tokens(path, SLASH))
  }

  // ---------------------------------------------------------------- nothing leaves the tree

  /** A chain of nodes from the root down, each in the list of the one before it. */
  predicate Chain(t: Tree, p: seq<int>)
    requires Sizes(t)
  {
    if |p| <= 1 then p == [t.root]
    else
      var d := p[|p| - 2];
      Chain(t, p[..|p| - 1]) && IsNode(t, d) && p[|p| - 1] in t.kids[d]
  }

  function Last(p: seq<int>): int
    requires p != []
  {
    p[|p| - 1]
  }

  ghost predicate Reachable(t: Tree, n: int)
    requires Sizes(t)
  {
    exists p :: Chain(t, p) && Last(p) == n
  }

  /** On the way down from the root no node follows itself. */
  lemma {:induction false} NotOwnParent(t: Tree, p: seq<int>)
    requires Inv(t) && Chain(t, p) && |p| > 1
    ensures p[|p| - 2] != Last(p) && Last(p) != t.root
  {
    var q := p[..|p| - 1];
    Listed(t, Last(q), Last(p));
    if |q| > 1 {
      Listed(t, q[|q| - 2], Last(q));
      NotOwnParent(t, q);
    }
  }

  /** One component leads from the tree into the tree; ".." at the root stays there. */
  lemma StepReachable(t: Tree, cur: nat, token: string)
    requires Inv(t) && IsNode(t, cur) && Reachable(t, cur)
    ensures Step(t, cur, token) != NULL ==> Reachable(t, Step(t, cur, token))
    ensures token == ".." ==> (Step(t, cur, token) == cur <==> cur == t.root)
  {
    var p :| Chain(t, p) && Last(p) == cur;
    if token == ".." {
      if |p| > 1 {
        var q := p[..|p| - 1];
        Listed(t, Last(q), cur);
        NotOwnParent(t, p);
        assert Chain(t, q) && Last(q) == t.parent[cur];
      }
    } else if token != "." {
      var n := Step(t, cur, token);
      if n != NULL {
        var q := p + [n];
        assert q[..|q| - 1] == p;
        assert Chain(t, q) && Last(q) == n;
      }
    }
  }

  /** Every successful resolve ends at a node reachable from the root. */
  lemma {:induction false} WalkReachable(t: Tree, cur: nat, tokens: seq<string>)
    requires Inv(t) && IsNode(t, cur) && Reachable(t, cur)
    ensures Walk(t, cur, tokens) != NULL ==> Reachable(t, Walk(t, cur, tokens))
    decreases |tokens|
  {
    if tokens != [] {
      StepReachable(t, cur, tokens[0]);
      if Step(t, cur, tokens[0]) != NULL { WalkReachable(t, Step(t, cur, tokens[0]), tokens[1..]); }
    }
  }

  lemma ResolveReachable(t: Tree, cwd: nat, path: string)
    requires Inv(t) && IsNode(t, cwd) && Reachable(t, cwd)
    ensures Resolve(t, cwd, path) != NULL ==> Reachable(t, Resolve(t, cwd, path))
  {
    if path != "" && path[0] == '/' {
      assert Chain(t, [t.root]) && Last([t.root]) == t.root;
      WalkReachable(t, t.root, Tokens(path[1..], SLASH));
    } else {
      WalkReachable(t, cwd, Tokens(path, SLASH));
    }
  }

  /** Going down to a child and up again comes back. */
  lemma DownAndUp(t: Tree, cur: nat, name: string)
    requires Inv(t) && IsNode(t, cur) && name != "." && name != ".." && Step(t, cur, name) != NULL
    ensures Step(t, Step(t, cur, name), "..") == cur
  {
    Listed(t, cur, Step(t, cur, name));
  }

  // ---------------------------------------------------------------- the path of a node

  predicate ProperName(name: string) {
    name != "" && name != "." && name != ".." && '/' !in name
  }

  /** Siblings have different names, all without slashes and none of them "." or "..". */
  predicate Proper(t: Tree)
    requires Inv(t)
  {
    forall d, i :: 0 <= d < |t.kids| && 0 <= i < |t.kids[d]| ==>
      HasParent(t, t.kids[d][i], d) && ProperName(t.names[t.kids[d][i]])
      && forall j :: 0 <= j < i ==> HasParent(t, t.kids[d][j], d) && t.names[t.kids[d][j]] != t.names[t.kids[d][i]]
  }

  /** The names along a chain, without the root's. */
  function Labels(t: Tree, p: seq<int>): (r: seq<string>)
    requires Inv(t) && Chain(t, p)
    ensures |r| == |p| - 1
  {
    if |p| == 1 then []
    else
      Listed(t, p[|p| - 2], Last(p));
      Labels(t, p[..|p| - 1]) + [t.names[Last(p)]]
  }

  function Join(labels: seq<string>): string {
    if labels == [] then "" else SLASH + labels[0] + Join(labels[1..])
  }

  /** The absolute path of the last node of a chain. */
  function PathOf(t: Tree, p: seq<int>): string
    requires Inv(t) && Chain(t, p)
  {
    if |p| == 1 then "/" else Join(Labels(t, p))
  }

  predicate AllProper(labels: seq<string>) {
    forall i :: 0 <= i < |labels| ==> ProperName(labels[i])
  }

  lemma {:induction false} SkipIs(s: string, p: nat, inside: bool, n: nat)
    requires p <= n <= |s| && (forall i :: p <= i < n ==> (s[i] == '/') == inside)
    requires n < |s| ==> (s[n] == '/') != inside
    ensures Skip(s, SLASH, p, inside) == n
    decreases n - p
  {
    if p < n { SkipIs(s, p + 1, inside, n); }
  }

  /** Splitting undoes joining. */
  lemma {:induction false} SplitJoined(prefix: string, labels: seq<string>)
    requires AllProper(labels)
    ensures TokensFrom(prefix + Join(labels), SLASH, |prefix|) == labels
    decreases |labels|
  {
    var s := prefix + Join(labels);
    if labels == [] {
      SkipIs(s, |prefix|, true, |s|);
    } else {
      var a := |prefix| + 1;
      var prefix' := prefix + SLASH + labels[0];
      assert s == prefix' + Join(labels[1..]);
      SkipIs(s, |prefix|, true, a);
      SkipIs(s, a, false, |prefix'|);
      assert s[a..|prefix'|] == labels[0];
      SplitJoined(prefix', labels[1..]);
    }
  }

  lemma {:induction false} WalkAppend(t: Tree, cur: nat, a: seq<string>, b: seq<string>)
    requires Inv(t) && IsNode(t, cur) && Walk(t, cur, a) != NULL
    ensures Walk(t, cur, a + b) == Walk(t, Walk(t, cur, a), b)
    decreases |a|
  {
    if a == [] {
      assert a + b == b;
    } else {
      assert (a + b)[1..] == a[1..] + b;
      WalkAppend(t, Step(t, cur, a[0]), a[1..], b);
    }
  }

  /** A name that only one child has finds that child. */
  lemma FindsOnly(t: Tree, d: nat, c: int)
    requires Inv(t) && Proper(t) && IsNode(t, d) && c in t.kids[d]
    ensures HasParent(t, c, d) && ProperName(t.names[c]) && Step(t, d, t.names[c]) == c
  {
    Listed(t, d, c);
    var i :| 0 <= i < |t.kids[d]| && t.kids[d][i] == c;
    var n := ChildNamed(t, d, t.names[c]);
    assert n != NULL;
    var j :| 0 <= j < |t.kids[d]| && t.kids[d][j] == n;
  }

  lemma {:induction false} WalkLabels(t: Tree, p: seq<int>)
    requires Inv(t) && Proper(t) && Chain(t, p)
    ensures IsNode(t, Last(p)) && AllProper(Labels(t, p)) && Walk(t, t.root, Labels(t, p)) == Last(p)
  {
    if |p| > 1 {
      var q := p[..|p| - 1];
      WalkLabels(t, q);
      FindsOnly(t, Last(q), Last(p));
      WalkAppend(t, t.root, Labels(t, q), [t.names[Last(p)]]);
    }
  }

  /** The path of a node resolves back to that node, from every working directory. */
  lemma PathResolves(t: Tree, p: seq<int>, cwd: nat)
    requires Inv(t) && Proper(t) && Chain(t, p) && IsNode(t, cwd)
    ensures Resolve(t, cwd, PathOf(t, p)) == Last(p)
  {
    WalkLabels(t, p);
    AbsoluteTokens(Labels(t, p));
  }

  /** The tokens of an absolute path, once its leading slash is skipped. */
  lemma AbsoluteTokens(labels: seq<string>)
    requires AllProper(labels)
    ensures var path := if labels == [] then "/" else Join(labels);
            path != "" && path[0] == '/' && Tokens(path[1..], SLASH) == labels
  {
    if labels == [] {
      assert "/"[1..] == "" + Join([]);
      SplitJoined("", []);
    } else {
      JoinedTokens(labels[0], labels[1..]);
      assert [labels[0]] + labels[1..] == labels;
    }
  }

  lemma JoinedTokens(first: string, others: seq<string>)
    requires ProperName(first) && AllProper(others)
    ensures var path := SLASH + first + Join(others); Tokens(path[1..], SLASH) == [first] + others
  {
    var rest := Join(others);
    assert (SLASH + first + rest)[1..] == first + rest;
    FirstToken(first, rest);
    SplitJoined(first, others);
  }

  lemma FirstToken(name: string, rest: string)
    requires name != "" && '/' !in name && (rest == "" || rest[0] == '/')
    ensures Tokens(name + rest, SLASH) == [name] + TokensFrom(name + rest, SLASH, |name|)
  {
    var s := name + rest;
    SkipIs(s, 0, true, 0);
    SkipIs(s, 0, false, |name|);
    assert s[0..|name|] == name;
  }

  // ---------------------------------------------------------------- runs

  datatype Change =
    | Create(name: string, isDir: bool, parent: int)
    | Add(dir: nat, child: nat)
    | Remove(dir: nat, child: nat)

  /** Parents exist, only loose nodes are added and only children are removed. */
  predicate Legal(t: Tree, c: Change)
    requires Sizes(t)
  {
    match c
    case Create(_, _, parent) => parent == NULL || IsNode(t, parent)
    case Add(d, c) => IsNode(t, d) && Loose(t, c)
    case Remove(d, c) => IsNode(t, d) && IsNode(t, c) && c in t.kids[d]
  }

  function Next(t: Tree, c: Change): Tree
    requires Sizes(t) && Legal(t, c)
  {
    match c
    case Create(name, isDir, parent) => Created(t, name, isDir, parent)
    case Add(d, c) => Added(t, d, c)
    case Remove(d, c) => Removed(t, d, c)
  }

  predicate LegalRun(t: Tree, changes: seq<Change>)
    requires Sizes(t)
    decreases |changes|
  {
    changes == [] ||
    (Legal(t, changes[0]) && Sizes(Next(t, changes[0])) && LegalRun(Next(t, changes[0]), changes[1..]))
  }

  function Run(t: Tree, changes: seq<Change>): Tree
    requires Sizes(t) && LegalRun(t, changes)
    decreases |changes|
  {
    if changes == [] then t else Run(Next(t, changes[0]), changes[1..])
  }

  lemma NextInv(t: Tree, c: Change)
    requires Inv(t) && Legal(t, c)
    ensures Inv(Next(t, c))
  {
    match c
    case Create(name, isDir, parent) => CreatedInv(t, name, isDir, parent);
    case Add(d, c) => AddedInv(t, d, c);
    case Remove(d, c) => RemovedInv(t, d, c);
  }

  lemma {:induction false} RunInv(t: Tree, changes: seq<Change>)
    requires Inv(t) && LegalRun(t, changes)
    ensures Inv(Run(t, changes)) && Run(t, changes).root == t.root
    decreases |changes|
  {
    if changes != [] {
      NextInv(t, changes[0]);
      RunInv(Next(t, changes[0]), changes[1..]);
    }
  }

  /** However the tree was built, a path from the root leads nowhere or into the tree. */
  lemma EveryRunResolves(changes: seq<Change>, path: string)
    requires LegalRun(Initial(), changes)
    ensures var t := Run(Initial(), changes);
            Inv(t) && (Resolve(t, t.root, path) != NULL ==> Reachable(t, Resolve(t, t.root, path)))
  {
    RunInv(Initial(), changes);
    var t := Run(Initial(), changes);
    assert Chain(t, [t.root]) && Last([t.root]) == t.root;
    ResolveReachable(t, t.root, path);
  }

  // ---------------------------------------------------------------- no cycles

  /** c is in the list of d. */
  predicate ChildOf(t: Tree, d: int, c: int) {
    IsNode(t, d) && c in t.kids[d]
  }

  /** A way down from node to child to child. */
  predicate Descends(t: Tree, p: seq<int>) {
    p != [] && forall i :: 0 <= i < |p| - 1 ==> ChildOf(t, p[i], p[i + 1])
  }

  /** b is in the subtree of a. */
  ghost predicate Below(t: Tree, a: int, b: int) {
    exists p :: Descends(t, p) && p[0] == a && Last(p) == b
  }

  /** No node is below itself. */
  ghost predicate Forest(t: Tree) {
    Inv(t) && forall p :: Descends(t, p) && |p| > 1 ==> p[0] != Last(p)
  }

  lemma DescendsMore(t: Tree, p: seq<int>, c: int)
    requires Descends(t, p) && ChildOf(t, Last(p), c)
    ensures Descends(t, p + [c])
  {
    var q := p + [c];
    forall i | 0 <= i < |q| - 1 ensures ChildOf(t, q[i], q[i + 1]) {
      if i < |p| - 1 { assert ChildOf(t, p[i], p[i + 1]); }
    }
  }

  lemma DescendsLess(t: Tree, p: seq<int>)
    requires Descends(t, p) && |p| > 1
    ensures Descends(t, p[..|p| - 1]) && ChildOf(t, Last(p[..|p| - 1]), Last(p))
  {
    var q := p[..|p| - 1];
    forall i | 0 <= i < |q| - 1 ensures ChildOf(t, q[i], q[i + 1]) {
      assert ChildOf(t, p[i], p[i + 1]);
    }
    assert ChildOf(t, p[|p| - 2], p[|p| - 1]);
  }

  lemma BelowItself(t: Tree, a: int)
    ensures Below(t, a, a)
  {
    assert Descends(t, [a]) && Last([a]) == a;
  }

  lemma BelowMore(t: Tree, a: int, b: int, c: int)
    requires Below(t, a, b) && ChildOf(t, b, c)
    ensures Below(t, a, c)
  {
    var p :| Descends(t, p) && p[0] == a && Last(p) == b;
    DescendsMore(t, p, c);
    assert Last(p + [c]) == c;
  }

  lemma {:induction false} BelowThrough(t: Tree, a: int, p: seq<int>)
    requires Descends(t, p) && Below(t, a, p[0])
    ensures Below(t, a, Last(p))
    decreases |p|
  {
    if |p| > 1 {
      var q := p[..|p| - 1];
      DescendsLess(t, p);
      BelowThrough(t, a, q);
      BelowMore(t, a, Last(q), Last(p));
    }
  }

  /** A way down from a to b after c was added to d was there before, or leads from a to d and from c to b. */
  lemma {:induction false} WayAfterAdd(t: Tree, u: Tree, d: nat, c: nat, p: seq<int>)
    requires Sizes(t) && IsNode(t, d) && IsNode(t, c) && u == Added(t, d, c) && Descends(u, p)
    ensures Descends(t, p) || (Below(t, p[0], d) && Below(t, c, Last(p)))
    decreases |p|
  {
    if |p| > 1 {
      var q := p[..|p| - 1];
      DescendsLess(u, p);
      WayAfterAdd(t, u, d, c, q);
      BelowItself(t, c);
      if ChildOf(t, Last(q), Last(p)) {
        if Descends(t, q) { DescendsMore(t, q, Last(p)); assert q + [Last(p)] == p; }
        else { BelowMore(t, c, Last(q), Last(p)); }
      } else {
        assert Last(q) == d && Last(p) == c;
      }
    }
  }

  /** Adding keeps a forest exactly when the node is loose and the directory is not in its subtree. */
  lemma AddForest(t: Tree, d: nat, c: nat)
    requires Forest(t) && IsNode(t, d) && IsNode(t, c) && t.isDir[d]
    ensures Forest(Added(t, d, c)) <==> Loose(t, c) && !Below(t, c, d)
  {
    AddKeeps(t, d, c);
    if Loose(t, c) {
      if Below(t, c, d) { AddCycle(t, d, c); } else { AddNoCycle(t, d, c); }
    }
  }

  lemma AddCycle(t: Tree, d: nat, c: nat)
    requires Inv(t) && IsNode(t, d) && IsNode(t, c) && t.isDir[d] && Below(t, c, d)
    ensures !Forest(Added(t, d, c))
  {
    var u := Added(t, d, c);
    var p: seq<int> :| Descends(t, p) && p[0] == c && Last(p) == d;
    forall i | 0 <= i < |p| - 1 ensures ChildOf(u, p[i], p[i + 1]) {
      assert ChildOf(t, p[i], p[i + 1]);
    }
    assert u.kids[d][|t.kids[d]|] == c;
    DescendsMore(u, p, c);
    assert Last(p + [c]) == c == (p + [c])[0];
  }

  lemma AddNoCycle(t: Tree, d: nat, c: nat)
    requires Forest(t) && IsNode(t, d) && IsNode(t, c) && t.isDir[d] && Loose(t, c) && !Below(t, c, d)
    ensures Forest(Added(t, d, c))
  {
    var u := Added(t, d, c);
    AddedInv(t, d, c);
    forall p | Descends(u, p) && |p| > 1 ensures p[0] != Last(p) {
      WayAfterAdd(t, u, d, c, p);
      if p[0] == Last(p) && !Descends(t, p) {
        var q :| Descends(t, q) && q[0] == p[0] && Last(q) == d;
        BelowThrough(t, c, q);
      }
    }
  }

  /** A tree with no other children than t has no other ways down. */
  lemma FewerWays(t: Tree, u: Tree)
    requires Forest(t) && Inv(u) && forall d, c :: ChildOf(u, d, c) ==> ChildOf(t, d, c)
    ensures Forest(u)
  {
    forall p | Descends(u, p) && |p| > 1 ensures p[0] != Last(p) {
      assert forall i :: 0 <= i < |p| - 1 ==> ChildOf(u, p[i], p[i + 1]);
      assert Descends(t, p);
    }
  }

  lemma RemoveForest(t: Tree, d: nat, c: nat)
    requires Forest(t) && IsNode(t, d) && IsNode(t, c) && c in t.kids[d]
    ensures Forest(Removed(t, d, c))
  {
    RemovedInv(t, d, c);
    FewerWays(t, Removed(t, d, c));
  }

  lemma CreateForest(t: Tree, name: string, isDir: bool, parent: int)
    requires Forest(t) && (parent == NULL || IsNode(t, parent))
    ensures Forest(Created(t, name, isDir, parent))
  {
    CreatedInv(t, name, isDir, parent);
    FewerWays(t, Created(t, name, isDir, parent));
  }

  lemma InitialForest()
    ensures Forest(Initial())
  {
    assert forall d, c :: !ChildOf(Initial(), d, c);
    assert forall p :: Descends(Initial(), p) && |p| > 1 ==> ChildOf(Initial(), p[0], p[1]);
  }

  /** The change adds no node to a directory of its own subtree. */
  ghost predicate Apart(t: Tree, c: Change)
    requires Sizes(t) && Legal(t, c)
  {
    c.Add? && t.isDir[c.dir] ==> !Below(t, c.child, c.dir)
  }

  lemma NextForest(t: Tree, c: Change)
    requires Forest(t) && Legal(t, c)
    ensures Forest(Next(t, c)) <==> Apart(t, c)
  {
    match c
    case Create(name, isDir, parent) => CreateForest(t, name, isDir, parent);
    case Add(d, c) => if t.isDir[d] { AddForest(t, d, c); }
    case Remove(d, c) => RemoveForest(t, d, c);
  }

  ghost predicate ForestAlong(t: Tree, changes: seq<Change>)
    requires Sizes(t) && LegalRun(t, changes)
    decreases |changes|
  {
    Forest(t) && (changes == [] || ForestAlong(Next(t, changes[0]), changes[1..]))
  }

  ghost predicate AllApart(t: Tree, changes: seq<Change>)
    requires Sizes(t) && LegalRun(t, changes)
    decreases |changes|
  {
    changes == [] || (Apart(t, changes[0]) && AllApart(Next(t, changes[0]), changes[1..]))
  }

  /** The nodes form a forest all along a run exactly if the run never adds a node to its own subtree. */
  lemma {:induction false} EveryRunForest(t: Tree, changes: seq<Change>)
    requires Forest(t) && LegalRun(t, changes)
    ensures ForestAlong(t, changes) <==> AllApart(t, changes)
    decreases |changes|
  {
    if changes != [] {
      NextForest(t, changes[0]);
      if Forest(Next(t, changes[0])) { EveryRunForest(Next(t, changes[0]), changes[1..]); }
    }
  }

  // ---------------------------------------------------------------- the sibling lists

  /** The element of a list at a position, NULL outside it. */
  function At(s: seq<int>, i: int): int {
    if 0 <= i < |s| then s[i] else NULL
  }

  /** Each element of s is linked to the ones beside it. */
  predicate Linked(s: seq<int>, next: seq<int>, prev: seq<int>) {
    forall i :: 0 <= i < |s| ==> LinkedAt(s, i, next, prev)
  }

  predicate LinkedAt(s: seq<int>, i: int, next: seq<int>, prev: seq<int>)
    requires 0 <= i < |s|
  {
    0 <= s[i] < |next| == |prev| && next[s[i]] == At(s, i + 1) && prev[s[i]] == At(s, i - 1)
  }

  /** A list survives changes to the links of nodes that are not in it. */
  lemma LinkedKept(s: seq<int>, next: seq<int>, prev: seq<int>, next': seq<int>, prev': seq<int>)
    requires Linked(s, next, prev) && |next| <= |next'| == |prev'|
    requires forall i :: 0 <= i < |s| && 0 <= s[i] < |next| == |prev| ==>
               next'[s[i]] == next[s[i]] && prev'[s[i]] == prev[s[i]]
    ensures Linked(s, next', prev')
  {
    forall i | 0 <= i < |s| ensures LinkedAt(s, i, next', prev') {
      assert LinkedAt(s, i, next, prev);
    }
  }

  /** Linking c behind the last element appends it. */
  lemma LinkedAppend(s: seq<int>, c: int, next: seq<int>, prev: seq<int>, next': seq<int>, prev': seq<int>)
    requires Linked(s, next, prev) && NoDuplicates(s) && 0 <= c < |next| == |prev| && c !in s
    requires |next'| == |prev'| == |next|
    requires s != [] ==> 0 <= Last(s) < |next|
    requires next' == (if s == [] then next else next[Last(s) := c])[c := NULL]
    requires prev' == prev[c := At(s, |s| - 1)]
    ensures Linked(s + [c], next', prev')
  {
    forall i | 0 <= i < |s + [c]| ensures LinkedAt(s + [c], i, next', prev') {
      if i < |s| { assert LinkedAt(s, i, next, prev); }
    }
  }

  /** Linking the neighbours of the k-th element to each other takes it out. */
  lemma LinkedRemove(s: seq<int>, k: nat, next: seq<int>, prev: seq<int>, next': seq<int>, prev': seq<int>)
    requires Linked(s, next, prev) && NoDuplicates(s) && k < |s| && |next'| == |prev'| == |next|
    requires forall i :: 0 <= i < |s| && i != k && LinkedAt(s, i, next, prev) ==>
               && next'[s[i]] == (if i == k - 1 then At(s, k + 1) else next[s[i]])
               && prev'[s[i]] == (if i == k + 1 then At(s, k - 1) else prev[s[i]])
    ensures Linked(s[..k] + s[k + 1..], next', prev')
  {
    var r := s[..k] + s[k + 1..];
    forall i | 0 <= i < |r| ensures LinkedAt(r, i, next', prev') {
      if i < k {
        assert LinkedAt(s, i, next, prev);
      } else {
        assert LinkedAt(s, i + 1, next, prev) && r[i] == s[i + 1];
      }
    }
  }

  /** The first and last child and the sibling links of every node. */
  datatype Links = Links(head: seq<int>, tail: seq<int>, next: seq<int>, prev: seq<int>)

  predicate ListOk(s: seq<int>, l: Links, d: nat)
    requires d < |l.head| && d < |l.tail|
  {
    l.head[d] == At(s, 0) && l.tail[d] == At(s, |s| - 1) && Linked(s, l.next, l.prev)
  }

  /** Every directory's links are the doubly linked list of its children. */
  predicate AllLinked(t: Tree, l: Links) {
    && |l.head| == |l.tail| == |l.next| == |l.prev| == |t.kids|
    && forall d :: 0 <= d < |t.kids| ==> ListOk(t.kids[d], l, d)
  }

  /** The links that vfs_dir_add_child leaves. */
  function AddedLinks(l: Links, d: nat, c: nat): Links
    requires d < |l.head| == |l.tail| && c < |l.next| == |l.prev|
  {
    var end := l.tail[d];
    Links(if l.head[d] == NULL then l.head[d := c] else l.head, l.tail[d := c],
          (if l.head[d] != NULL && 0 <= end < |l.next| then l.next[end := c] else l.next)[c := NULL],
          l.prev[c := if l.head[d] == NULL then NULL else end])
  }

  lemma AddedLinked(t: Tree, l: Links, d: nat, c: nat)
    requires Inv(t) && AllLinked(t, l) && IsNode(t, d) && t.isDir[d] && Loose(t, c)
    ensures AllLinked(Added(t, d, c), AddedLinks(l, d, c))
  {
    var u, m := Added(t, d, c), AddedLinks(l, d, c);
    var s := t.kids[d];
    assert ListOk(s, l, d);
    if s != [] { assert LinkedAt(s, |s| - 1, l.next, l.prev) && HasParent(t, s[|s| - 1], d); }
    LinkedAppend(s, c, l.next, l.prev, m.next, m.prev);
    forall e | 0 <= e < |u.kids| ensures ListOk(u.kids[e], m, e) {
      assert ListOk(t.kids[e], l, e);
      if e != d {
        Others(t, d, e);
        LinkedKept(t.kids[e], l.next, l.prev, m.next, m.prev);
      }
    }
  }

  /** The children of different directories are different. */
  lemma Others(t: Tree, d: nat, e: nat)
    requires Inv(t) && IsNode(t, d) && IsNode(t, e) && d != e
    ensures forall i, j :: 0 <= i < |t.kids[e]| && 0 <= j < |t.kids[d]| ==> t.kids[e][i] != t.kids[d][j]
  {
    forall i, j | 0 <= i < |t.kids[e]| && 0 <= j < |t.kids[d]| ensures t.kids[e][i] != t.kids[d][j] {
      assert HasParent(t, t.kids[e][i], e) && HasParent(t, t.kids[d][j], d);
    }
  }

  /** The links that vfs_dir_remove_child leaves. */
  function RemovedLinks(l: Links, d: nat, c: nat): Links
    requires d < |l.head| == |l.tail| && c < |l.next| == |l.prev|
  {
    var p, n := l.prev[c], l.next[c];
    Links(if p == NULL then l.head[d := n] else l.head, if n == NULL then l.tail[d := p] else l.tail,
          (if 0 <= p < |l.next| then l.next[p := n] else l.next)[c := NULL],
          (if 0 <= n < |l.prev| then l.prev[n := p] else l.prev)[c := NULL])
  }

  lemma RemovedLinked(t: Tree, l: Links, d: nat, c: nat)
    requires Inv(t) && AllLinked(t, l) && IsNode(t, d) && IsNode(t, c) && c in t.kids[d]
    ensures AllLinked(Removed(t, d, c), RemovedLinks(l, d, c))
  {
    var u, m := Removed(t, d, c), RemovedLinks(l, d, c);
    var s := t.kids[d];
    var k := IndexOf(s, c);
    assert ListOk(s, l, d) && LinkedAt(s, k, l.next, l.prev);
    RemovedList(s, k, l, d);
    forall e | 0 <= e < |u.kids| ensures ListOk(u.kids[e], m, e) {
      assert ListOk(t.kids[e], l, e);
      if e != d {
        Others(t, d, e);
        LinkedKept(t.kids[e], l.next, l.prev, m.next, m.prev);
      }
    }
  }

  lemma RemovedList(s: seq<int>, k: nat, l: Links, d: nat)
    requires d < |l.head| == |l.tail| && |l.next| == |l.prev|
    requires ListOk(s, l, d) && NoDuplicates(s) && k < |s| && LinkedAt(s, k, l.next, l.prev)
    requires forall i :: 0 <= i < |s| ==> 0 <= s[i] < |l.next|
    ensures ListOk(s[..k] + s[k + 1..], RemovedLinks(l, d, s[k]), d)
  {
    var m := RemovedLinks(l, d, s[k]);
    forall i | 0 <= i < |s| && i != k
      ensures && m.next[s[i]] == (if i == k - 1 then At(s, k + 1) else l.next[s[i]])
              && m.prev[s[i]] == (if i == k + 1 then At(s, k - 1) else l.prev[s[i]])
    {
    }
    LinkedRemove(s, k, l.next, l.prev, m.next, m.prev);
  }

  // ---------------------------------------------------------------- nodes in no list

  /** A node in no list has no siblings. */
  predicate IdleLinks(t: Tree, l: Links) {
    && |l.next| == |l.prev| == |t.kids|
    && forall c :: 0 <= c < |t.kids| && Unlisted(t, c) ==> l.next[c] == NULL && l.prev[c] == NULL
  }

  lemma CreatedIdle(t: Tree, l: Links, name: string, isDir: bool, parent: int)
    requires IdleLinks(t, l)
    ensures IdleLinks(Created(t, name, isDir, parent), NewLinks(l))
  {
    var u := Created(t, name, isDir, parent);
    forall c | 0 <= c < |t.kids| && Unlisted(u, c) ensures Unlisted(t, c) {
      forall d, i | 0 <= d < |t.kids| && 0 <= i < |t.kids[d]| ensures t.kids[d][i] != c { assert u.kids[d][i] != c; }
    }
  }

  lemma AddedIdle(t: Tree, l: Links, d: nat, c: nat)
    requires Inv(t) && AllLinked(t, l) && IdleLinks(t, l) && IsNode(t, d) && t.isDir[d] && IsNode(t, c)
    ensures IdleLinks(Added(t, d, c), AddedLinks(l, d, c))
  {
    var u := Added(t, d, c);
    assert ListOk(t.kids[d], l, d);
    forall x | 0 <= x < |u.kids| && Unlisted(u, x) ensures Unlisted(t, x) && x != c {
      assert u.kids[d][|t.kids[d]|] == c;
      forall e, i | 0 <= e < |t.kids| && 0 <= i < |t.kids[e]| ensures t.kids[e][i] != x {
        assert u.kids[e][i] == t.kids[e][i];
      }
    }
  }

  lemma DroppedIdle(t: Tree, l: Links, d: nat, c: nat)
    requires Inv(t) && AllLinked(t, l) && IdleLinks(t, l) && IsNode(t, d) && IsNode(t, c)
    ensures IdleLinks(Dropped(t, c), RemovedLinks(l, d, c))
  {
    DroppedInv(t, c);
    var u, e := Dropped(t, c), t.parent[c];
    forall x | 0 <= x < |u.kids| && Unlisted(u, x) && x != c
      ensures Unlisted(t, x) && x != l.prev[c] && x != l.next[c]
    {
      StillUnlisted(t, c, x);
      if IsNode(t, e) && c in t.kids[e] {
        var k := IndexOf(t.kids[e], c);
        assert ListOk(t.kids[e], l, e) && LinkedAt(t.kids[e], k, l.next, l.prev);
      }
    }
  }

  lemma StillUnlisted(t: Tree, c: nat, x: int)
    requires Inv(t) && IsNode(t, c) && Unlisted(Dropped(t, c), x) && x != c
    ensures Unlisted(t, x)
  {
    var u, e := Dropped(t, c), t.parent[c];
    forall d, i | 0 <= d < |t.kids| && 0 <= i < |t.kids[d]| ensures t.kids[d][i] != x {
      if IsNode(t, e) && t.isDir[e] && c in t.kids[e] && d == e {
        var k := IndexOf(t.kids[e], c);
        if i < k { assert u.kids[d][i] == t.kids[d][i]; } else if i > k { assert u.kids[d][i - 1] == t.kids[d][i]; }
      } else {
        assert u.kids[d] == t.kids[d];
      }
    }
  }

  /** When vfs_dir_remove_child leaves sound lists behind, whoever's child it is given: the child is in
      the list of that directory, or has siblings on both sides in another one, or is in no list while
      the directory is empty. */
  predicate RemovesCleanly(t: Tree, l: Links, d: nat, c: nat)
    requires IsNode(t, d) && IsNode(t, c) && |l.next| == |l.prev| == |t.kids|
  {
    || c in t.kids[d]
    || (if Unlisted(t, c) then t.kids[d] == [] else l.prev[c] != NULL && l.next[c] != NULL)
  }

  lemma RemoveUnlisted(t: Tree, l: Links, d: nat, c: nat)
    requires Inv(t) && AllLinked(t, l) && IdleLinks(t, l) && IsNode(t, d) && IsNode(t, c) && Unlisted(t, c)
    ensures AllLinked(Dropped(t, c), RemovedLinks(l, d, c)) <==> t.kids[d] == []
  {
    DroppedInv(t, c);
    var u, m := Dropped(t, c), RemovedLinks(l, d, c);
    assert u.kids == t.kids && m == Links(l.head[d := NULL], l.tail[d := NULL], l.next, l.prev);
    assert ListOk(t.kids[d], l, d);
    if t.kids[d] == [] {
      forall e | 0 <= e < |u.kids| ensures ListOk(u.kids[e], m, e) { assert ListOk(t.kids[e], l, e); }
    } else {
      assert !ListOk(u.kids[d], m, d);
    }
  }

  lemma RemoveElsewhere(t: Tree, l: Links, d: nat, c: nat, e: nat)
    requires Inv(t) && AllLinked(t, l) && IsNode(t, d) && IsNode(t, c) && IsNode(t, e) && e != d && c in t.kids[e]
    ensures AllLinked(Removed(t, e, c), RemovedLinks(l, d, c)) <==> l.prev[c] != NULL && l.next[c] != NULL
  {
    var s := t.kids[e];
    var k := IndexOf(s, c);
    var u, m := Removed(t, e, c), RemovedLinks(l, d, c);
    assert ListOk(s, l, e) && LinkedAt(s, k, l.next, l.prev) && HasParent(t, s[k], e);
    if l.prev[c] != NULL && l.next[c] != NULL {
      RemovedLinked(t, l, e, c);
      assert m == RemovedLinks(l, e, c);
    } else {
      RemovedEnds(s, k, c);
      assert !ListOk(u.kids[e], m, e);
    }
  }

  /** What is left of a list neither starts nor ends with what was taken out of it. */
  lemma RemovedEnds(s: seq<int>, k: nat, c: int)
    requires NoDuplicates(s) && k < |s| && s[k] == c && 0 <= c && c in s
    ensures At(Without(s, c), 0) != c && At(Without(s, c), |Without(s, c)| - 1) != c
  {
    var j := IndexOf(s, c);
    assert j == k;
  }

  /** Removal leaves sound lists exactly in these cases. */
  lemma RemoveExact(t: Tree, l: Links, d: nat, c: nat)
    requires Inv(t) && AllLinked(t, l) && IdleLinks(t, l) && IsNode(t, d) && IsNode(t, c)
    ensures AllLinked(Dropped(t, c), RemovedLinks(l, d, c)) <==> RemovesCleanly(t, l, d, c)
  {
    DroppedInv(t, c);
    var e := t.parent[c];
    if c in t.kids[d] { RemovedLinked(t, l, d, c); }
    else if Unlisted(t, c) { RemoveUnlisted(t, l, d, c); }
    else { RemoveElsewhere(t, l, d, c, e); }
  }

  function NewLinks(l: Links): Links {
    Links(l.head + [NULL], l.tail + [NULL], l.next + [NULL], l.prev + [NULL])
  }

  lemma CreatedLinked(t: Tree, l: Links, name: string, isDir: bool, parent: int)
    requires Inv(t) && AllLinked(t, l)
    ensures AllLinked(Created(t, name, isDir, parent), NewLinks(l))
  {
    var u, m := Created(t, name, isDir, parent), NewLinks(l);
    forall d | 0 <= d < |u.kids| ensures ListOk(u.kids[d], m, d) {
      if d < |t.kids| {
        assert ListOk(t.kids[d], l, d);
        LinkedKept(t.kids[d], l.next, l.prev, m.next, m.prev);
      }
    }
  }

  function NextLinks(t: Tree, l: Links, c: Change): (m: Links)
    requires Inv(t) && AllLinked(t, l) && Legal(t, c)
    ensures Inv(Next(t, c)) && AllLinked(Next(t, c), m)
  {
    NextInv(t, c);
    match c
    case Create(name, isDir, parent) => CreatedLinked(t, l, name, isDir, parent); NewLinks(l)
    case Add(d, c) => if !t.isDir[d] then l else AddedLinked(t, l, d, c); AddedLinks(l, d, c)
    case Remove(d, c) => RemovedLinked(t, l, d, c); RemovedLinks(l, d, c)
  }

  /** After every run of changes the links of every directory are the doubly linked list of its children. */
  function RunLinks(t: Tree, l: Links, changes: seq<Change>): (m: Links)
    requires Inv(t) && AllLinked(t, l) && LegalRun(t, changes)
    ensures Inv(Run(t, changes)) && AllLinked(Run(t, changes), m)
    decreases |changes|
  {
    if changes == [] then l else RunLinks(Next(t, changes[0]), NextLinks(t, l, changes[0]), changes[1..])
  }

  // ---------------------------------------------------------------- the tree in place

  /** The nodes, with one entry per node in every field, and the root and working directory. */
  class NodeTable {
    var isDir: seq<bool>
    var names: seq<string>
    var parent: seq<int>
    var head: seq<int>
    var tail: seq<int>
    var next: seq<int>
    var prev: seq<int>
    var root: int
    var cwd: int
    ghost var kids: seq<seq<int>>

    ghost function T(): Tree
      reads this
    {
      Tree(isDir, names, parent, kids, root)
    }

    ghost function L(): Links
      reads this`head, this`tail, this`next, this`prev
    {
      Links(head, tail, next, prev)
    }

    ghost predicate Valid()
      reads this
    {
      Inv(T()) && AllLinked(T(), L()) && IdleLinks(T(), L()) && cwd == root
    }

    /** vfs_init: the root is its own working directory. */
    constructor ()
      ensures Valid() && T() == Initial()
    {
      isDir, names, parent := [true], ["/"], [NULL];
      head, tail, next, prev := [NULL], [NULL], [NULL], [NULL];
      root, cwd, kids := 0, 0, [[]];
    }

    /** memory says whether kmalloc has a node. */
    method CreateNode(name: string, dir: bool, up: int, memory: bool) returns (node: int)
      requires Valid() && (up == NULL || IsNode(T(), up))
      modifies this
      ensures Valid()
      ensures memory ==> node == |old(isDir)| && T() == Created(old(T()), name, dir, up) && Loose(T(), node)
      ensures !memory ==> node == NULL && T() == old(T())
    {
      if !memory { return NULL; }
      CreatedInv(T(), name, dir, up);
      CreatedLinked(T(), L(), name, dir, up);
      CreatedIdle(T(), L(), name, dir, up);
      CreatedLoose(T(), name, dir, up);
      node := |isDir|;
      Extend(name, dir, up);
    }

    method Extend(name: string, dir: bool, up: int)
      modifies this
      ensures T() == Created(old(T()), name, dir, up) && cwd == old(cwd)
      ensures L() == NewLinks(old(L()))
    {
      isDir, names, parent := isDir + [dir], names + [StoredName(name)], parent + [up];
      head, tail, next, prev := head + [NULL], tail + [NULL], next + [NULL], prev + [NULL];
      kids := kids + [[]];
    }

    method AddChild(dir: nat, child: nat) returns (r: int)
      requires Valid() && IsNode(T(), dir) && IsNode(T(), child)
      modifies this
      ensures T() == Added(old(T()), dir, child)
      ensures L() == if old(isDir[dir]) then AddedLinks(old(L()), dir, child) else old(L())
      ensures r == if old(isDir[dir]) then KERNEL_SUCCESS else KERNEL_FAILURE
      ensures Valid() <==> !old(isDir[dir]) || Loose(old(T()), child)
      ensures old(Forest(T())) ==>
                (Forest(T()) <==> !old(isDir[dir]) || (Loose(old(T()), child) && !Below(old(T()), child, dir)))
    {
      if !isDir[dir] { return KERNEL_FAILURE; }
      AddKeeps(T(), dir, child);
      if Forest(T()) { AddForest(T(), dir, child); }
      if Loose(T(), child) { AddedLinked(T(), L(), dir, child); }
      AddedIdle(T(), L(), dir, child);
      LastIsNode(T(), L(), dir);
      Attach(dir, child);
      r := KERNEL_SUCCESS;
    }

    method Attach(dir: nat, child: nat)
      requires Sizes(T()) && IsNode(T(), dir) && IsNode(T(), child) && isDir[dir]
      requires dir < |head| == |tail| && child < |next| == |prev|
      requires head[dir] != NULL ==> 0 <= tail[dir] < |next|
      modifies this`parent, this`head, this`tail, this`next, this`prev, this`kids
      ensures T() == Added(old(T()), dir, child) && L() == AddedLinks(old(L()), dir, child)
    {
      LinkLast(dir, child);
      parent := parent[child := dir];
      kids := kids[dir := kids[dir] + [child]];
    }

    /** The child is linked behind the last one. */
    method LinkLast(dir: nat, child: nat)
      requires dir < |head| == |tail| && child < |next| == |prev|
      requires head[dir] != NULL ==> 0 <= tail[dir] < |next|
      modifies this`head, this`tail, this`next, this`prev
      ensures L() == AddedLinks(old(L()), dir, child)
    {
      if head[dir] == NULL {
        head, tail := head[dir := child], tail[dir := child];
        next, prev := next[child := NULL], prev[child := NULL];
      } else {
        next := next[tail[dir] := child];
        prev := prev[child := tail[dir]];
        next := next[child := NULL];
        tail := tail[dir := child];
      }
    }

    method RemoveChild(dir: nat, child: nat)
      requires Valid() && IsNode(T(), dir) && IsNode(T(), child)
      modifies this
      ensures T() == if old(isDir[dir]) then Dropped(old(T()), child) else old(T())
      ensures L() == if old(isDir[dir]) then RemovedLinks(old(L()), dir, child) else old(L())
      ensures Valid() <==> !old(isDir[dir]) || RemovesCleanly(old(T()), old(L()), dir, child)
      ensures old(isDir[dir]) && child in old(kids[dir]) ==> Valid() && T() == Removed(old(T()), dir, child)
    {
      if !isDir[dir] { return; }
      DroppedInv(T(), child);
      RemoveExact(T(), L(), dir, child);
      DroppedIdle(T(), L(), dir, child);
      Neighbours(T(), L(), dir, child);
      Detach(dir, child);
    }

    method Detach(dir: nat, child: nat)
      requires Sizes(T()) && IsNode(T(), dir) && IsNode(T(), child) && isDir[dir] && Beside(T(), L(), dir, child)
      modifies this`parent, this`head, this`tail, this`next, this`prev, this`kids
      ensures T() == Dropped(old(T()), child) && L() == RemovedLinks(old(L()), dir, child)
    {
      Unlink(dir, child);
      kids := Dropped(T(), child).kids;
      parent := parent[child := NULL];
    }

    /** The neighbours of the child are linked to each other. */
    method Unlink(dir: nat, child: nat)
      requires Beside(T(), L(), dir, child)
      modifies this`head, this`tail, this`next, this`prev
      ensures L() == RemovedLinks(old(L()), dir, child)
    {
      if prev[child] != NULL {
        next := next[prev[child] := next[child]];
      } else {
        head := head[dir := next[child]];
      }
      if next[child] != NULL {
        prev := prev[next[child] := prev[child]];
      } else {
        tail := tail[dir := prev[child]];
      }
      next, prev := next[child := NULL], prev[child := NULL];
    }

    method FindChild(dir: nat, name: string) returns (child: int)
      requires Valid() && IsNode(T(), dir)
      ensures child == ChildNamed(T(), dir, name)
    {
      if !isDir[dir] { return NULL; }
      assert ListOk(kids[dir], L(), dir);
      child := head[dir];
      ghost var i := 0;
      Kids(T(), dir);
      while child != NULL
        invariant 0 <= i <= |kids[dir]| && child == At(kids[dir], i)
        invariant FirstNamed(T(), kids[dir], name) == FirstNamed(T(), kids[dir][i..], name)
        decreases |kids[dir]| - i
      {
        if names[child] == name { return; }
        assert LinkedAt(kids[dir], i, next, prev);
        child, i := next[child], i + 1;
      }
    }

    /** memory says whether the copy of the path can be made. */
    method ResolvePath(path: string, memory: bool) returns (node: int)
      requires Valid()
      ensures node == if memory then Resolve(T(), cwd, path) else NULL
    {
      if !memory { return NULL; }
      var norm, current := path, cwd;
      if norm != "" && norm[0] == '/' {
        norm, current := norm[1..], root;
      }
      var tokens := Tokens(norm, SLASH);
      var i := 0;
      while i < |tokens|
        invariant 0 <= i <= |tokens| && IsNode(T(), current)
        invariant Resolve(T(), cwd, path) == Walk(T(), current, tokens[i..])
      {
        if tokens[i] == "." {
        } else if tokens[i] == ".." {
          if parent[current] != NULL { current := parent[current]; }
        } else {
          var child := FindChild(current, tokens[i]);
          if child == NULL { return NULL; }
          current := child;
        }
        i := i + 1;
      }
      node := current;
    }
  }

  lemma CreatedLoose(t: Tree, name: string, isDir: bool, parent: int)
    requires Inv(t) && (parent == NULL || IsNode(t, parent))
    ensures Inv(Created(t, name, isDir, parent)) && Loose(Created(t, name, isDir, parent), |t.isDir|)
  {
    CreatedInv(t, name, isDir, parent);
    var u := Created(t, name, isDir, parent);
    forall d, i | 0 <= d < |u.kids| && 0 <= i < |u.kids[d]| ensures u.kids[d][i] != |t.isDir| {
      assert HasParent(t, t.kids[d][i], d);
    }
  }

  lemma Kids(t: Tree, d: nat)
    requires Inv(t) && IsNode(t, d)
    ensures forall i :: 0 <= i < |t.kids[d]| ==> 0 <= t.kids[d][i] < |t.names|
  {
    forall i | 0 <= i < |t.kids[d]| ensures 0 <= t.kids[d][i] < |t.names| {
      assert HasParent(t, t.kids[d][i], d);
    }
  }

  lemma LastIsNode(t: Tree, l: Links, d: nat)
    requires Inv(t) && AllLinked(t, l) && IsNode(t, d)
    ensures l.head[d] != NULL ==> IsNode(t, l.tail[d])
  {
    assert ListOk(t.kids[d], l, d);
    Kids(t, d);
  }

  /** The siblings beside a child are null or nodes, and none of them is the child. */
  predicate Beside(t: Tree, l: Links, d: nat, c: nat) {
    && |l.head| == |l.tail| == |l.next| == |l.prev| == |t.kids| && d < |t.kids| && c < |t.kids|
    && (l.prev[c] == NULL || (IsNode(t, l.prev[c]) && l.prev[c] != c))
    && (l.next[c] == NULL || (IsNode(t, l.next[c]) && l.next[c] != c))
  }

  lemma Neighbours(t: Tree, l: Links, d: nat, c: nat)
    requires Inv(t) && AllLinked(t, l) && IdleLinks(t, l) && IsNode(t, d) && IsNode(t, c)
    ensures Beside(t, l, d, c)
  {
    if !Unlisted(t, c) {
      var e, k :| 0 <= e < |t.kids| && 0 <= k < |t.kids[e]| && t.kids[e][k] == c;
      assert ListOk(t.kids[e], l, e) && LinkedAt(t.kids[e], k, l.next, l.prev);
      Kids(t, e);
    }
  }
}
