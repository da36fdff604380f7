/** The folder resolver inside `config_parser` (joplin-anki-sync.py, lines 91-107).
    Every Joplin folder lists its parent's id, or none for a top-level folder. The
    script groups the folders by parent id, then, for every folder whose title is
    selected in the configuration, walks the subtree below it with an explicit stack.
    Each folder it meets is recorded under its title with its own id and the title of
    the selected folder the walk started from; a later record under the same title
    replaces an earlier one. */
module FolderTree {

  import opened Wrappers

  /** One item of Joplin's folder listing. */
  datatype Folder = Folder(id: string, title: string, parent: Option<string>)

  /** What the script records for a folder: its id and the title of its root. */
  type Entry = (string, string)

  // ---------------------------------------------------------------------------------
  // The parent-to-children graph (lines 92-95)

  /** The folders whose parent is `id`, in listing order. */
  function Children(items: seq<Folder>, id: string): (kids: seq<Folder>)
    ensures forall c :: c in kids ==> c in items && c.parent == Some(id)
  {
    if items == [] then []
    else
      var f := items[|items| - 1];
      Children(items[..|items| - 1], id) + (if f.parent == Some(id) then [f] else [])
  }

  /** Every folder whose parent is `id` is among the children of `id`. */
  lemma {:induction false} ChildrenComplete(items: seq<Folder>, id: string, c: Folder)
    requires c in items && c.parent == Some(id)
    ensures c in Children(items, id)
  {
    if c != items[|items| - 1] {
      assert c in items[..|items| - 1];
      ChildrenComplete(items[..|items| - 1], id, c);
    }
  }

  /** `graph[id]` on the `defaultdict(list)`: an absent key reads as the empty list. */
  function Lookup(graph: map<string, seq<Folder>>, id: string): seq<Folder>
  {
    if id in graph then graph[id] else []
  }

  /** Lines 92-95: every folder with a parent is appended to its parent's list. */
  method BuildGraph(items: seq<Folder>) returns (graph: map<string, seq<Folder>>)
    ensures forall id :: Lookup(graph, id) == Children(items, id)
    ensures forall id :: id in graph ==> graph[id] != []
  {
    graph := map[];
    for i := 0 to |items|
      invariant forall id :: Lookup(graph, id) == Children(items[..i], id)
      invariant forall id :: id in graph ==> graph[id] != []
    {
      var f := items[i];
      assert items[..i + 1][..i] == items[..i] && items[..i + 1][i] == f;
      if f.parent.Some? {
        graph := graph[f.parent.value := Lookup(graph, f.parent.value) + [f]];
      }
    }
    assert items[..|items|] == items;
  }

  // ---------------------------------------------------------------------------------
  // Acyclicity and reachability

  /** The parent links are acyclic, witnessed by a rank on ids that every child's id
      has below its parent's id: the "distinct trees" the script assumes (line 91). */
  ghost predicate Ranked(items: seq<Folder>, rank: string -> nat)
  {
    forall c :: c in items && c.parent.Some? ==> rank(c.id) < rank(c.parent.value)
  }

  /** `p` is a chain of folders, each after the first a child of the one before it. */
  ghost predicate IsPath(items: seq<Folder>, p: seq<Folder>)
  {
    |p| >= 1 && forall i :: 0 < i < |p| ==> p[i] in items && p[i].parent == Some(p[i - 1].id)
  }

  /** `f` lies in the subtree below `r`, following parent links downwards. */
  ghost predicate Reaches(items: seq<Folder>, r: Folder, f: Folder)
  {
    exists p :: IsPath(items, p) && p[0] == r && p[|p| - 1] == f
  }

  // ---------------------------------------------------------------------------------
  // The order of the walk

  /** One more than the largest rank on the stack. */
  ghost function Height(rank: string -> nat, s: seq<Folder>): nat
  {
    if s == [] then 0
    else
      var n := s[|s| - 1];
      var h := Height(rank, s[..|s| - 1]);
      if rank(n.id) + 1 > h then rank(n.id) + 1 else h
  }

  lemma {:induction false} HeightBound(rank: string -> nat, s: seq<Folder>, b: nat)
    requires forall f :: f in s ==> rank(f.id) < b
    ensures Height(rank, s) <= b
  {
    if s != [] {
      HeightBound(rank, s[..|s| - 1], b);
    }
  }

  /** The folders one walk records, in order, starting with `n`. */
  ghost function Visit(items: seq<Folder>, rank: string -> nat, n: Folder): seq<Folder>
    requires Ranked(items, rank)
    decreases rank(n.id), 1, 0
  {
    var kids := Children(items, n.id);
    HeightBound(rank, kids, rank(n.id));
    [n] + Trace(items, rank, kids)
  }

  /** The folders recorded from the stack `s` until it is empty: `pop()` takes the last
      one, and the children pushed in its place are all taken before the rest. */
  ghost function Trace(items: seq<Folder>, rank: string -> nat, s: seq<Folder>): seq<Folder>
    requires Ranked(items, rank)
    decreases Height(rank, s), 0, |s|
  {
    if s == [] then []
    else Visit(items, rank, s[|s| - 1]) + Trace(items, rank, s[..|s| - 1])
  }

  /** The folder on top of the stack is walked first. */
  lemma {:induction false} TraceTop(items: seq<Folder>, rank: string -> nat, s: seq<Folder>, n: Folder)
    requires Ranked(items, rank)
    ensures Trace(items, rank, s + [n]) == Visit(items, rank, n) + Trace(items, rank, s)
  {
    var t := s + [n];
    assert t[|t| - 1] == n && t[..|t| - 1] == s;
  }

  /** Pushing `b` on top of `a`: all of `b` is taken first. */
  lemma {:induction false} TraceAppend(items: seq<Folder>, rank: string -> nat, a: seq<Folder>, b: seq<Folder>)
    requires Ranked(items, rank)
    ensures Trace(items, rank, a + b) == Trace(items, rank, b) + Trace(items, rank, a)
    decreases |b|
  {
    if b == [] {
      assert a + b == a;
    } else {
      var n, init := b[|b| - 1], b[..|b| - 1];
      assert b == init + [n];
      assert a + b == (a + init) + [n];
      TraceTop(items, rank, a + init, n);
      TraceTop(items, rank, init, n);
      TraceAppend(items, rank, a, init);
      AppendAssoc(Visit(items, rank, n), Trace(items, rank, init), Trace(items, rank, a));
    }
  }

  lemma {:induction false} TraceSound(items: seq<Folder>, rank: string -> nat, s: seq<Folder>, f: Folder)
    requires Ranked(items, rank)
    requires f in Trace(items, rank, s)
    ensures exists c :: c in s && f in Visit(items, rank, c)
    decreases |s|
  {
    var c := s[|s| - 1];
    if f !in Visit(items, rank, c) {
      TraceSound(items, rank, s[..|s| - 1], f);
      var d :| d in s[..|s| - 1] && f in Visit(items, rank, d);
      assert d in s;
    }
  }

  lemma {:induction false} TraceComplete(items: seq<Folder>, rank: string -> nat, s: seq<Folder>, c: Folder, f: Folder)
    requires Ranked(items, rank)
    requires c in s && f in Visit(items, rank, c)
    ensures f in Trace(items, rank, s)
    decreases |s|
  {
    if c != s[|s| - 1] {
      assert c in s[..|s| - 1];
      TraceComplete(items, rank, s[..|s| - 1], c, f);
    }
  }

  /** A walk from `r` records exactly the folders of the subtree below `r`. */
  lemma {:induction false} VisitReaches(items: seq<Folder>, rank: string -> nat, r: Folder, f: Folder)
    requires Ranked(items, rank)
    requires f in Visit(items, rank, r)
    ensures Reaches(items, r, f)
    decreases rank(r.id)
  {
    if f == r {
      var q := [r];
      assert IsPath(items, q) && q[0] == r && q[|q| - 1] == f;
    } else {
      var kids := Children(items, r.id);
      TraceSound(items, rank, kids, f);
      var c :| c in kids && f in Visit(items, rank, c);
      VisitReaches(items, rank, c, f);
      var p :| IsPath(items, p) && p[0] == c && p[|p| - 1] == f;
      PathCons(items, r, p);
    }
  }

  /** A chain below a child of `r` extends to a chain below `r`. */
  lemma {:induction false} PathCons(items: seq<Folder>, r: Folder, p: seq<Folder>)
    requires IsPath(items, p) && p[0] in items && p[0].parent == Some(r.id)
    ensures Reaches(items, r, p[|p| - 1])
  {
    var q := [r] + p;
    assert q[0] == r && q[|q| - 1] == p[|p| - 1];
    forall i | 0 < i < |q|
      ensures q[i] in items && q[i].parent == Some(q[i - 1].id)
    {
      assert q[i] == p[i - 1];
      if i > 1 {
        assert q[i - 1] == p[i - 2];
      }
    }
    assert IsPath(items, q);
  }

  lemma {:induction false} ReachesVisit(items: seq<Folder>, rank: string -> nat, p: seq<Folder>)
    requires Ranked(items, rank) && IsPath(items, p)
    ensures p[|p| - 1] in Visit(items, rank, p[0])
    decreases |p|
  {
    if |p| > 1 {
      var c := p[1];
      var kids := Children(items, p[0].id);
      ChildrenComplete(items, p[0].id, c);
      var tail := p[1..];
      assert forall i :: 0 < i < |tail| ==> tail[i] == p[i + 1] && tail[i - 1] == p[i];
      ReachesVisit(items, rank, tail);
      TraceComplete(items, rank, kids, c, p[|p| - 1]);
    }
  }

  /** The subtree below `r`, as the walk finds it. */
  lemma VisitIsSubtree(items: seq<Folder>, rank: string -> nat, r: Folder, f: Folder)
    requires Ranked(items, rank)
    ensures f in Visit(items, rank, r) <==> Reaches(items, r, f)
  {
    if f in Visit(items, rank, r) {
      VisitReaches(items, rank, r, f);
    }
    if Reaches(items, r, f) {
      var p :| IsPath(items, p) && p[0] == r && p[|p| - 1] == f;
      ReachesVisit(items, rank, p);
    }
  }

  // ---------------------------------------------------------------------------------
  // The records written

  /** Every folder of `vs` paired with the root title `root`. */
  function Tag(vs: seq<Folder>, root: string): (ws: seq<(Folder, string)>)
    ensures |ws| == |vs|
    ensures forall i :: 0 <= i < |vs| ==> ws[i] == (vs[i], root)
  {
    if vs == [] then [] else Tag(vs[..|vs| - 1], root) + [(vs[|vs| - 1], root)]
  }

  /** The walk from each folder, as a function. */
  ghost function Walks(items: seq<Folder>, rank: string -> nat): Folder -> seq<Folder>
  {
    r => if Ranked(items, rank) then Visit(items, rank, r) else []
  }

  /** The writes of the outer loop for the folder `r`: its walk, when its title is
      selected. */
  function WalkOf(selected: set<string>, walk: Folder -> seq<Folder>, r: Folder): seq<(Folder, string)>
  {
    if r.title in selected then Tag(walk(r), r.title) else []
  }

  /** The writes for each folder, as a function. */
  function WalkWrites(selected: set<string>, walk: Folder -> seq<Folder>): Folder -> seq<(Folder, string)>
  {
    r => WalkOf(selected, walk, r)
  }

  /** The writes of the outer loop over the first `k` folders of the listing, those for
      each folder given by `of`. */
  function Writes(items: seq<Folder>, of: Folder -> seq<(Folder, string)>, k: nat): seq<(Folder, string)>
    requires k <= |items|
  {
    if k == 0 then [] else Writes(items, of, k - 1) + of(items[k - 1])
  }

  /** The dict `m` after the writes `ws`, the later write under a title replacing the
      earlier one. */
  function Apply(m: map<string, Entry>, ws: seq<(Folder, string)>): map<string, Entry>
  {
    if ws == [] then m
    else
      var w := ws[|ws| - 1];
      Apply(m, ws[..|ws| - 1])[w.0.title := (w.0.id, w.1)]
  }

  lemma {:induction false} ApplyAppend(m: map<string, Entry>, a: seq<(Folder, string)>, b: seq<(Folder, string)>)
    ensures Apply(m, a + b) == Apply(Apply(m, a), b)
    decreases |b|
  {
    if b == [] {
      assert a + b == a;
    } else {
      assert (a + b)[..|a + b| - 1] == a + b[..|b| - 1];
      ApplyAppend(m, a, b[..|b| - 1]);
    }
  }

  /** Lines 97-107. */
  method ResolveFolders(items: seq<Folder>, selected: set<string>, ghost rank: string -> nat)
    returns (folders: map<string, Entry>)
    requires Ranked(items, rank)
    ensures folders == Apply(map[], Writes(items, WalkWrites(selected, Walks(items, rank)), |items|))
  {
    var graph := BuildGraph(items);
    ghost var walks := Walks(items, rank);
    folders := map[];
    for k := 0 to |items|
      invariant folders == Apply(map[], Writes(items, WalkWrites(selected, walks), k))
    {
      var r := items[k];
      ResolveStep(items, selected, rank, k, folders);
      if r.title in selected {
        folders := Walk(items, rank, graph, r, folders);
      }
    }
  }

  /** One folder more in the outer loop: a selected one adds its walk, another one
      nothing. */
  lemma ResolveStep(items: seq<Folder>, selected: set<string>, rank: string -> nat, k: nat, folders: map<string, Entry>)
    requires Ranked(items, rank) && k < |items|
    requires folders == Apply(map[], Writes(items, WalkWrites(selected, Walks(items, rank)), k))
    ensures var r := items[k];
      Apply(map[], Writes(items, WalkWrites(selected, Walks(items, rank)), k + 1))
      == if r.title in selected then Apply(folders, Tag(Visit(items, rank, r), r.title)) else folders
  {
    var walks := Walks(items, rank);
    var r := items[k];
    var before := Writes(items, WalkWrites(selected, walks), k);
    var writes := WalkOf(selected, walks, r);
    assert Writes(items, WalkWrites(selected, walks), k + 1) == before + writes;
    if r.title in selected {
      assert writes == Tag(Visit(items, rank, r), r.title);
      ApplyAppend(map[], before, writes);
    } else {
      assert before + writes == before;
    }
  }

  /** Lines 99-107: the walk from one selected folder `r`, recording every folder it
      pops under its title with its id and the title of `r` (the `root`). */
  method Walk(items: seq<Folder>, ghost rank: string -> nat, graph: map<string, seq<Folder>>, r: Folder,
              folders: map<string, Entry>)
    returns (result: map<string, Entry>)
    requires Ranked(items, rank)
    requires forall id :: Lookup(graph, id) == Children(items, id)
    ensures result == Apply(folders, Tag(Visit(items, rank, r), r.title))
  {
    var stack, root := [r], r.title;
    ghost var done: seq<Folder> := [];
    result := folders;
    assert Trace(items, rank, stack) == Visit(items, rank, r) by {
      assert stack[..0] == [];
    }
    while stack != []
      invariant done + Trace(items, rank, stack) == Visit(items, rank, r)
      invariant result == Apply(folders, Tag(done, root))
      decreases |Trace(items, rank, stack)|
    {
      var node := stack[|stack| - 1];
      var rest := stack[..|stack| - 1];
      var kids := Lookup(graph, node.id);
      assert stack == rest + [node];
      WalkStep(items, rank, r, done, rest, node, kids);
      PopStep(folders, done, root, node);
      result := result[node.title := (node.id, root)];
      done := done + [node];
      if kids != [] {
        stack := rest + kids;
      } else {
        assert rest + kids == rest;
        stack := rest;
      }
    }
    assert done == Visit(items, rank, r);
  }

  /** One pop of the walk: the last folder `n` of the stack is recorded first, then
      everything from the rest of the stack with the children of `n` pushed. */
  lemma {:induction false} PopTrace(items: seq<Folder>, rank: string -> nat, rest: seq<Folder>, n: Folder, kids: seq<Folder>)
    requires Ranked(items, rank)
    requires kids == Children(items, n.id)
    ensures Trace(items, rank, rest + [n]) == [n] + Trace(items, rank, rest + kids)
  {
    TraceTop(items, rank, rest, n);
    TraceAppend(items, rank, rest, kids);
    var below, others := Trace(items, rank, kids), Trace(items, rank, rest);
    VisitFirst(items, rank, n);
    AppendAssoc([n], below, others);
  }

  lemma AppendAssoc<T>(a: seq<T>, b: seq<T>, c: seq<T>)
    ensures (a + b) + c == a + (b + c)
  {
  }

  /** A walk records its start first, then the walks from its children. */
  lemma VisitFirst(items: seq<Folder>, rank: string -> nat, n: Folder)
    requires Ranked(items, rank)
    ensures Visit(items, rank, n) == [n] + Trace(items, rank, Children(items, n.id))
  {
  }

  /** The loop invariant of `Walk` is kept by one pop, and fewer folders remain. */
  lemma {:induction false} WalkStep(items: seq<Folder>, rank: string -> nat, r: Folder, done: seq<Folder>,
                                    rest: seq<Folder>, n: Folder, kids: seq<Folder>)
    requires Ranked(items, rank)
    requires done + Trace(items, rank, rest + [n]) == Visit(items, rank, r)
    requires kids == Children(items, n.id)
    ensures (done + [n]) + Trace(items, rank, rest + kids) == Visit(items, rank, r)
    ensures |Trace(items, rank, rest + kids)| < |Trace(items, rank, rest + [n])|
  {
    PopTrace(items, rank, rest, n, kids);
    AppendAssoc(done, [n], Trace(items, rank, rest + kids));
  }

  /** One pop of the walk: one more write, at the end. */
  lemma {:induction false} PopStep(m: map<string, Entry>, done: seq<Folder>, root: string, node: Folder)
    ensures Apply(m, Tag(done + [node], root)) == Apply(m, Tag(done, root))[node.title := (node.id, root)]
  {
    var ws := Tag(done + [node], root);
    assert ws[..|ws| - 1] == Tag(done, root);
  }

  // ---------------------------------------------------------------------------------
  // What the dict holds

  /** Every title written is a key. */
  lemma {:induction false} ApplyKeysComplete(m: map<string, Entry>, ws: seq<(Folder, string)>, i: nat)
    requires i < |ws|
    ensures ws[i].0.title in Apply(m, ws)
    decreases |ws|
  {
    if i < |ws| - 1 {
      ApplyKeysComplete(m, ws[..|ws| - 1], i);
    }
  }

  /** The later write wins: the value under a title is the one of the last write to it. */
  lemma {:induction false} ApplyLast(m: map<string, Entry>, ws: seq<(Folder, string)>, i: nat)
    requires i < |ws|
    requires forall j :: i < j < |ws| ==> ws[j].0.title != ws[i].0.title
    ensures ws[i].0.title in Apply(m, ws)
    ensures Apply(m, ws)[ws[i].0.title] == (ws[i].0.id, ws[i].1)
    decreases |ws|
  {
    if i < |ws| - 1 {
      ApplyLast(m, ws[..|ws| - 1], i);
    }
  }

  /** Every key of the result was there before or comes from one of the writes, and then
      holds what that write recorded. */
  lemma {:induction false} ApplySound(m: map<string, Entry>, ws: seq<(Folder, string)>, t: string)
    requires t in Apply(m, ws)
    ensures (t in m && Apply(m, ws)[t] == m[t])
         || exists i :: 0 <= i < |ws| && ws[i].0.title == t && Apply(m, ws)[t] == (ws[i].0.id, ws[i].1)
    decreases |ws|
  {
    if ws != [] && ws[|ws| - 1].0.title != t {
      var init := ws[..|ws| - 1];
      ApplySound(m, init, t);
      if !(t in m && Apply(m, ws)[t] == m[t]) {
        var i :| 0 <= i < |init| && init[i].0.title == t && Apply(m, init)[t] == (init[i].0.id, init[i].1);
        assert ws[i] == init[i];
      }
    }
  }

  /** The writes of one walk are its folders, each with the root's title. */
  lemma {:induction false} TagMembers(vs: seq<Folder>, root: string, w: (Folder, string))
    ensures w in Tag(vs, root) <==> w.0 in vs && w.1 == root
  {
    var ws := Tag(vs, root);
    if w.0 in vs && w.1 == root {
      var i :| 0 <= i < |vs| && vs[i] == w.0;
      assert ws[i] == w;
    }
  }

  /** The writes for one folder of the listing. */
  lemma {:induction false} WalkOfMembers(selected: set<string>, walk: Folder -> seq<Folder>, r: Folder, w: (Folder, string))
    ensures w in WalkOf(selected, walk, r) <==> r.title in selected && w.1 == r.title && w.0 in walk(r)
  {
    if r.title in selected {
      TagMembers(walk(r), r.title, w);
    }
  }

  /** Every write comes from the writes of a folder of the listing. */
  lemma {:induction false} WritesSound(items: seq<Folder>, of: Folder -> seq<(Folder, string)>, k: nat, w: (Folder, string))
    requires k <= |items|
    requires w in Writes(items, of, k)
    ensures exists j :: 0 <= j < k && w in of(items[j])
  {
    var before := Writes(items, of, k - 1);
    if w in before {
      WritesSound(items, of, k - 1, w);
    }
  }

  /** Every write of a folder of the listing is among the writes. */
  lemma {:induction false} WritesComplete(items: seq<Folder>, of: Folder -> seq<(Folder, string)>, k: nat,
                                          j: nat, w: (Folder, string))
    requires j < k <= |items|
    requires w in of(items[j])
    ensures w in Writes(items, of, k)
  {
    if j < k - 1 {
      WritesComplete(items, of, k - 1, j, w);
    }
  }

  /** For acyclic folders, every folder below a selected folder, that folder included,
      gets an entry. */
  lemma ResolvedComplete(items: seq<Folder>, rank: string -> nat, selected: set<string>, r: Folder, f: Folder)
    requires Ranked(items, rank)
    requires r in items && r.title in selected && Reaches(items, r, f)
    ensures f.title in Apply(map[], Writes(items, WalkWrites(selected, Walks(items, rank)), |items|))
  {
    var walks := Walks(items, rank);
    var p :| IsPath(items, p) && p[0] == r && p[|p| - 1] == f;
    ReachesVisit(items, rank, p);
    assert f in walks(r);
    var j :| 0 <= j < |items| && items[j] == r;
    WalkOfMembers(selected, walks, r, (f, r.title));
    WritesComplete(items, WalkWrites(selected, walks), |items|, j, (f, r.title));
    var ws := Writes(items, WalkWrites(selected, walks), |items|);
    var i :| 0 <= i < |ws| && ws[i] == (f, r.title);
    ApplyKeysComplete(map[], ws, i);
  }

  /** Every entry is under the title of a folder below a selected folder, and holds that
      folder's id and the selected folder's title. */
  lemma ResolvedSound(items: seq<Folder>, rank: string -> nat, selected: set<string>, t: string)
    requires Ranked(items, rank)
    requires t in Apply(map[], Writes(items, WalkWrites(selected, Walks(items, rank)), |items|))
    ensures exists r, f :: r in items && r.title in selected && Reaches(items, r, f) && f.title == t
                        && Apply(map[], Writes(items, WalkWrites(selected, Walks(items, rank)), |items|))[t] == (f.id, r.title)
  {
    var walks := Walks(items, rank);
    var ws := Writes(items, WalkWrites(selected, walks), |items|);
    ApplySound(map[], ws, t);
    var i :| 0 <= i < |ws| && ws[i].0.title == t && Apply(map[], ws)[t] == (ws[i].0.id, ws[i].1);
    var w := ws[i];
    WritesSound(items, WalkWrites(selected, walks), |items|, w);
    var j :| 0 <= j < |items| && w in WalkOf(selected, walks, items[j]);
    var r := items[j];
    WalkOfMembers(selected, walks, r, w);
    assert w.0 in Visit(items, rank, r);
    VisitReaches(items, rank, r, w.0);
  }

  // ---------------------------------------------------------------------------------
  // An example: a selected folder with two sub-folders

  const Topics := Folder("a", "Topics", None)
  const Left := Folder("b", "Left", Some("a"))
  const Right := Folder("c", "Right", Some("a"))
  const Listing := [Topics, Left, Right]

  function ExampleRank(id: string): nat
  {
    if id == "a" then 1 else 0
  }

  lemma ExampleRanked()
    ensures Ranked(Listing, ExampleRank)
  {
    forall c | c in Listing && c.parent.Some?
      ensures ExampleRank(c.id) < ExampleRank(c.parent.value)
    {
      assert c == Left || c == Right;
    }
  }

  lemma ExampleChildren()
    ensures Children(Listing, "a") == [Left, Right]
    ensures Children(Listing, "b") == [] && Children(Listing, "c") == []
  {
    ExampleChildrenOf("a");
    ExampleChildrenOf("b");
    ExampleChildrenOf("c");
  }

  /** Only Topics has children. */
  lemma ExampleChildrenOf(id: string)
    ensures Children(Listing, id) == (if id == "a" then [Left, Right] else [])
  {
    ExampleChildrenOfFirstTwo(id);
    ExampleChildrenOfLast(id);
    if id == "a" {
      assert [Left] + [Right] == [Left, Right];
    }
  }

  lemma ExampleChildrenOfLast(id: string)
    ensures Children(Listing, id) == Children([Topics, Left], id) + (if id == "a" then [Right] else [])
  {
    ChildrenSnoc([Topics, Left], Right, id);
    assert [Topics, Left] + [Right] == Listing;
  }

  lemma ExampleChildrenOfFirstTwo(id: string)
    ensures Children([Topics, Left], id) == (if id == "a" then [Left] else [])
  {
    ExampleChildrenOfFirst(id);
    ChildrenSnoc([Topics], Left, id);
    assert [Topics] + [Left] == [Topics, Left];
  }

  lemma ExampleChildrenOfFirst(id: string)
    ensures Children([Topics], id) == []
  {
    ChildrenSnoc([], Topics, id);
    assert [] + [Topics] == [Topics];
  }

  /** The children within a listing one folder longer. */
  lemma ChildrenSnoc(items: seq<Folder>, f: Folder, id: string)
    ensures Children(items + [f], id) == Children(items, id) + (if f.parent == Some(id) then [f] else [])
  {
    assert (items + [f])[..|items|] == items;
  }

  /** The sub-folders have no sub-folders of their own. */
  lemma ExampleLeaf(f: Folder)
    requires f == Left || f == Right
    ensures Ranked(Listing, ExampleRank)
    ensures Visit(Listing, ExampleRank, f) == [f]
  {
    ExampleRanked();
    ExampleChildren();
    assert Trace(Listing, ExampleRank, []) == [];
  }

  /** The stack of the two sub-folders is emptied from the top. */
  lemma ExampleTrace()
    ensures Ranked(Listing, ExampleRank)
    ensures Trace(Listing, ExampleRank, [Left, Right]) == [Right, Left]
  {
    ExampleLeaf(Left);
    ExampleLeaf(Right);
    TraceTop(Listing, ExampleRank, [], Left);
    TraceTop(Listing, ExampleRank, [Left], Right);
    assert [] + [Left] == [Left] && [Left] + [Right] == [Left, Right];
  }

  /** The stack pops the last child first: the walk goes Topics, Right, Left. */
  lemma ExampleWalk()
    ensures Ranked(Listing, ExampleRank)
    ensures Visit(Listing, ExampleRank, Topics) == [Topics, Right, Left]
  {
    ExampleChildren();
    ExampleTrace();
  }
}
