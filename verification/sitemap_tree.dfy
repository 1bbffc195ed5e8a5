/** The nested dictionary `build_tree` makes of the page records for
    the HTML sitemap.  A node is a dictionary in insertion order; the
    key "__pages__" normally holds the list of records filed at that
    node (a `Bucket`), every other key a sub-dictionary (a `Child`).
    Nothing stops a URL segment from being "__pages__" itself, so a
    `Child` may sit under that key too; the program then fails with an
    AttributeError when it next appends to that node or walks into a
    list, which the model reports as `None`. */
module SitemapTree {
  import opened Wrappers
  import opened Text
  import opened Urls
  import opened Crawl

  const PagesKey := "__pages__"
  const RootKey := "/"

  datatype Item = Bucket(pages: seq<PageRecord>) | Child(name: string, node: Tree)

  datatype Tree = Tree(items: seq<Item>)

  const Empty := Tree([])

  function KeyOf(it: Item): string {
    if it.Bucket? then PagesKey else it.name
  }

  /** The position of key `k` among `items` at or after `from`, or -1. */
  function IndexFrom(items: seq<Item>, k: string, from: nat): (i: int)
    requires from <= |items|
    ensures i == -1 || from <= i < |items|
    ensures i == -1 ==> forall j :: from <= j < |items| ==> KeyOf(items[j]) != k
    ensures i != -1 ==> KeyOf(items[i]) == k && forall j :: from <= j < i ==> KeyOf(items[j]) != k
    decreases |items| - from
  {
    if from == |items| then -1
    else if KeyOf(items[from]) == k then from
    else IndexFrom(items, k, from + 1)
  }

  /** Dictionary lookup: the position of key `k`, or -1. */
  function IndexOfKey(items: seq<Item>, k: string): (i: int)
    ensures -1 <= i < |items|
    ensures i == -1 <==> forall j :: 0 <= j < |items| ==> KeyOf(items[j]) != k
    ensures i != -1 ==> KeyOf(items[i]) == k && forall j :: 0 <= j < i ==> KeyOf(items[j]) != k
  {
    IndexFrom(items, k, 0)
  }

  // ---- placement ----

  function Count(s: string, c: char): nat {
    multiset(s)[c]
  }

  /** The keys `build_tree` walks for a page whose URL path is `path`:
      paths with at most one '/' go under "/"; otherwise the non-empty
      segments, minus the last one when it contains a '.'. */
  function Place(path: string): (loc: seq<string>)
    ensures |loc| > 0 && loc[0] == RootKey ==> loc == [RootKey]
    ensures forall i :: 0 <= i < |loc| ==> loc[i] != ""
  {
    if path == "" || path == "/" || Count(path, '/') == 1 then [RootKey]
    else
      var parts := Segments(path);
      if |parts| == 0 then []
      else if '.' in parts[|parts| - 1] then parts[..|parts| - 1]
      else parts
  }

  lemma {:induction false} CountOfJoin(parts: seq<string>)
    requires forall i :: 0 <= i < |parts| ==> IsSegment(parts[i])
    ensures Count(JoinSegments(parts), '/') == |parts|
    decreases |parts|
  {
    if |parts| > 0 {
      CountOfJoin(parts[1..]);
      assert JoinSegments(parts) == "/" + parts[0] + JoinSegments(parts[1..]);
      assert multiset(parts[0])['/'] == 0;
    }
  }

  /** Where a page under the canonical path "/p1/.../pn" is filed:
      directly under "/" for one segment; otherwise under its
      directories, plus its own last segment unless that names a file. */
  lemma PlaceOfCanonicalPath(parts: seq<string>)
    requires 0 < |parts|
    requires forall i :: 0 <= i < |parts| ==> IsSegment(parts[i])
    ensures |parts| == 1 ==> Place(JoinSegments(parts)) == [RootKey]
    ensures |parts| > 1 && '.' in parts[|parts| - 1] ==> Place(JoinSegments(parts)) == parts[..|parts| - 1]
    ensures |parts| > 1 && '.' !in parts[|parts| - 1] ==> Place(JoinSegments(parts)) == parts
  {
    CountOfJoin(parts);
    SegmentsOfJoin(parts);
    var p := JoinSegments(parts);
    assert p[0] == '/';
    if |parts| > 1 {
      assert p != "" && p != "/" by { assert |p| > 1; }
    }
  }

  /** Where a page under the directory path "/p1/.../pn/" is filed:
      under all its segments (even a single one), minus the last one
      when that contains a '.'.  So "/docs/" files under "docs" while
      "/docs" files under "/". */
  lemma PlaceOfDirectoryPath(parts: seq<string>)
    requires 0 < |parts|
    requires forall i :: 0 <= i < |parts| ==> IsSegment(parts[i])
    ensures '.' in parts[|parts| - 1] ==> Place(JoinSegments(parts) + "/") == parts[..|parts| - 1]
    ensures '.' !in parts[|parts| - 1] ==> Place(JoinSegments(parts) + "/") == parts
  {
    CountOfJoin(parts);
    SegmentsOfJoinSlash(parts);
    var p := JoinSegments(parts) + "/";
    assert multiset(p)['/'] == Count(JoinSegments(parts), '/') + 1;
    assert p[0] == '/';
    assert |p| > 1;
  }

  // ---- insertion ----

  /** `setdefault` along `loc`, then `setdefault("__pages__", []).append(e)`.
      `None` is the AttributeError raised when the walk reaches a list or
      the final node's "__pages__" holds a dictionary. */
  function InsertAt(t: Tree, loc: seq<string>, e: PageRecord): Option<Tree>
    decreases |loc|
  {
    if |loc| == 0 then
      var i := IndexOfKey(t.items, PagesKey);
      if i == -1 then Some(Tree(t.items + [Bucket([e])]))
      else if t.items[i].Bucket? then Some(Tree(t.items[i := Bucket(t.items[i].pages + [e])]))
      else None
    else
      var i := IndexOfKey(t.items, loc[0]);
      if i == -1 then
        match InsertAt(Empty, loc[1..], e)
        case None => None
        case Some(n) => Some(Tree(t.items + [Child(loc[0], n)]))
      else if t.items[i].Bucket? then None
      else
        match InsertAt(t.items[i].node, loc[1..], e)
        case None => None
        case Some(n) => Some(Tree(t.items[i := Child(loc[0], n)]))
  }

  /** `build_tree(page_data)`: every record filed at the place of its
      URL path, in crawl order. */
  function BuildTree(pages: seq<PageRecord>): Option<Tree>
    decreases |pages|
  {
    if |pages| == 0 then Some(Empty)
    else
      var last := pages[|pages| - 1];
      match BuildTree(pages[..|pages| - 1])
      case None => None
      case Some(t) => InsertAt(t, Place(PathOf(last.url)), last)
  }

  // ---- reading the tree back ----

  /** The list under this node's "__pages__" key, if it is a list. */
  function PagesHere(t: Tree): seq<PageRecord> {
    var i := IndexOfKey(t.items, PagesKey);
    if i != -1 && t.items[i].Bucket? then t.items[i].pages else []
  }

  /** The records filed at the node reached by walking `loc`. */
  function BucketAt(t: Tree, loc: seq<string>): seq<PageRecord>
    decreases |loc|
  {
    if |loc| == 0 then PagesHere(t)
    else
      var i := IndexOfKey(t.items, loc[0]);
      if i != -1 && t.items[i].Child? then BucketAt(t.items[i].node, loc[1..]) else []
  }

  /** The reference answer: the records whose place is `loc`, in order. */
  function PlacedAt(pages: seq<PageRecord>, loc: seq<string>): (r: seq<PageRecord>)
    ensures |r| <= |pages|
    ensures forall p :: p in r ==> p in pages && Place(PathOf(p.url)) == loc
    decreases |pages|
  {
    if |pages| == 0 then []
    else
      var last := pages[|pages| - 1];
      PlacedAt(pages[..|pages| - 1], loc) + (if Place(PathOf(last.url)) == loc then [last] else [])
  }

  lemma {:induction false} BucketAtEmpty(loc: seq<string>)
    ensures BucketAt(Empty, loc) == []
  {
  }

  /** Replacing an item by one with the same key moves no key. */
  lemma SameKeysSameIndex(a: seq<Item>, b: seq<Item>, k: string)
    requires |a| == |b|
    requires forall j :: 0 <= j < |a| ==> KeyOf(a[j]) == KeyOf(b[j])
    ensures IndexOfKey(a, k) == IndexOfKey(b, k)
  {
    var i, j := IndexOfKey(a, k), IndexOfKey(b, k);
    if i != -1 && j != -1 {
      assert !(i < j) && !(j < i);
    }
  }

  /** Appending a new key leaves every other key where it was. */
  lemma AppendIndex(items: seq<Item>, x: Item, k: string)
    requires IndexOfKey(items, KeyOf(x)) == -1
    ensures IndexOfKey(items + [x], k) == if k == KeyOf(x) then |items| else IndexOfKey(items, k)
  {
    var all := items + [x];
    assert forall j :: 0 <= j < |items| ==> all[j] == items[j];
    assert all[|items|] == x;
    var i := IndexOfKey(items, k);
    var r := IndexOfKey(all, k);
    if k == KeyOf(x) {
      assert r != -1;
    } else if i == -1 {
      assert forall j :: 0 <= j < |all| ==> KeyOf(all[j]) != k;
    } else {
      assert KeyOf(all[i]) == k;
      assert r != -1;
    }
  }

  /** Filing at the node itself changes only that node's own list. */
  lemma InsertHereBuckets(t: Tree, e: PageRecord, l: seq<string>)
    requires InsertAt(t, [], e).Some?
    ensures BucketAt(InsertAt(t, [], e).value, l) == BucketAt(t, l) + (if l == [] then [e] else [])
  {
    var t' := InsertAt(t, [], e).value;
    var i := IndexOfKey(t.items, PagesKey);
    if i == -1 {
      var x := Bucket([e]);
      AppendIndex(t.items, x, PagesKey);
      if l != [] {
        AppendIndex(t.items, x, l[0]);
        var j := IndexOfKey(t.items, l[0]);
        if j != -1 { assert t'.items[j] == t.items[j]; }
      }
    } else {
      SameKeysSameIndex(t.items, t'.items, PagesKey);
      if l != [] {
        SameKeysSameIndex(t.items, t'.items, l[0]);
      }
    }
  }

  /** Filing under a key that is not there yet creates a fresh branch. */
  lemma InsertNewChildBuckets(t: Tree, loc: seq<string>, e: PageRecord, n: Tree, l: seq<string>)
    requires |loc| > 0 && IndexOfKey(t.items, loc[0]) == -1
    requires InsertAt(Empty, loc[1..], e) == Some(n)
    requires forall l' :: BucketAt(n, l') == (if l' == loc[1..] then [e] else [])
    ensures BucketAt(Tree(t.items + [Child(loc[0], n)]), l) == BucketAt(t, l) + (if l == loc then [e] else [])
  {
    var x := Child(loc[0], n);
    var t' := Tree(t.items + [x]);
    if l == [] {
      AppendIndex(t.items, x, PagesKey);
      var j := IndexOfKey(t.items, PagesKey);
      if j != -1 { assert t'.items[j] == t.items[j]; }
    } else {
      AppendIndex(t.items, x, l[0]);
      var j := IndexOfKey(t.items, l[0]);
      if j != -1 { assert t'.items[j] == t.items[j]; }
      if l[0] == loc[0] {
        assert l == loc <==> l[1..] == loc[1..];
      }
    }
  }

  /** Filing inside an existing branch changes only that branch. */
  lemma InsertOldChildBuckets(t: Tree, loc: seq<string>, e: PageRecord, i: nat, n: Tree, l: seq<string>)
    requires |loc| > 0 && IndexOfKey(t.items, loc[0]) == i && t.items[i].Child?
    requires forall l' :: BucketAt(n, l') == BucketAt(t.items[i].node, l') + (if l' == loc[1..] then [e] else [])
    ensures BucketAt(Tree(t.items[i := Child(loc[0], n)]), l) == BucketAt(t, l) + (if l == loc then [e] else [])
  {
    var t' := Tree(t.items[i := Child(loc[0], n)]);
    if l == [] {
      SameKeysSameIndex(t.items, t'.items, PagesKey);
    } else {
      SameKeysSameIndex(t.items, t'.items, l[0]);
      if l[0] == loc[0] {
        assert l == loc <==> l[1..] == loc[1..];
      }
    }
  }

  /** Filing a record at `loc` appends it to the list at `loc` and to no
      other list. */
  lemma {:induction false} InsertAtBuckets(t: Tree, loc: seq<string>, e: PageRecord)
    requires InsertAt(t, loc, e).Some?
    ensures forall l :: BucketAt(InsertAt(t, loc, e).value, l) == BucketAt(t, l) + (if l == loc then [e] else [])
    decreases |loc|
  {
    if |loc| == 0 {
      forall l { InsertHereBuckets(t, e, l); }
    } else {
      var i := IndexOfKey(t.items, loc[0]);
      if i == -1 {
        var n := InsertAt(Empty, loc[1..], e).value;
        InsertAtBuckets(Empty, loc[1..], e);
        forall l' ensures BucketAt(n, l') == (if l' == loc[1..] then [e] else []) {
          BucketAtEmpty(l');
        }
        forall l { InsertNewChildBuckets(t, loc, e, n, l); }
      } else {
        var n := InsertAt(t.items[i].node, loc[1..], e).value;
        InsertAtBuckets(t.items[i].node, loc[1..], e);
        forall l { InsertOldChildBuckets(t, loc, e, i, n, l); }
      }
    }
  }

  /** Every list in a built tree holds exactly the records placed there,
      in crawl order. */
  lemma {:induction false} BuildTreeBuckets(pages: seq<PageRecord>, l: seq<string>)
    requires BuildTree(pages).Some?
    ensures BucketAt(BuildTree(pages).value, l) == PlacedAt(pages, l)
    decreases |pages|
  {
    if |pages| > 0 {
      var init := pages[..|pages| - 1];
      var last := pages[|pages| - 1];
      BuildTreeBuckets(init, l);
      InsertAtBuckets(BuildTree(init).value, Place(PathOf(last.url)), last);
    } else {
      BucketAtEmpty(l);
    }
  }

  // ---- dictionary invariants ----

  /** No "__pages__" key anywhere holds a dictionary. */
  predicate NoPagesChild(t: Tree)
    decreases t
  {
    forall i :: 0 <= i < |t.items| ==> NoPagesChildItem(t.items[i])
  }

  predicate NoPagesChildItem(it: Item)
    decreases it
  {
    it.Child? ==> it.name != PagesKey && NoPagesChild(it.node)
  }

  predicate DistinctKeys(items: seq<Item>) {
    forall i, j :: 0 <= i < j < |items| ==> KeyOf(items[i]) != KeyOf(items[j])
  }

  /** Every node's keys are distinct, as a dictionary's are. */
  predicate WellKeyed(t: Tree)
    decreases t
  {
    && DistinctKeys(t.items)
    && (forall i :: 0 <= i < |t.items| ==> WellKeyedItem(t.items[i]))
  }

  predicate WellKeyedItem(it: Item)
    decreases it
  {
    it.Child? ==> WellKeyed(it.node)
  }

  lemma UpdateKeepsDistinctKeys(items: seq<Item>, i: nat, x: Item)
    requires i < |items| && KeyOf(x) == KeyOf(items[i])
    requires DistinctKeys(items)
    ensures DistinctKeys(items[i := x])
  {
    var u := items[i := x];
    forall a, b | 0 <= a < b < |items| ensures KeyOf(u[a]) != KeyOf(u[b]) {
      assert KeyOf(u[a]) == KeyOf(items[a]) && KeyOf(u[b]) == KeyOf(items[b]);
    }
  }

  lemma AppendKeepsDistinctKeys(items: seq<Item>, x: Item)
    requires IndexOfKey(items, KeyOf(x)) == -1
    requires DistinctKeys(items)
    ensures DistinctKeys(items + [x])
  {
    var u := items + [x];
    forall a, b | 0 <= a < b < |u| ensures KeyOf(u[a]) != KeyOf(u[b]) {
      assert u[a] == items[a];
    }
  }

  /** Filing keeps every node a dictionary. */
  lemma {:induction false} InsertAtKeepsWellKeyed(t: Tree, loc: seq<string>, e: PageRecord)
    requires WellKeyed(t)
    requires InsertAt(t, loc, e).Some?
    ensures WellKeyed(InsertAt(t, loc, e).value)
    decreases |loc|
  {
    var t' := InsertAt(t, loc, e).value;
    if |loc| == 0 {
      var i := IndexOfKey(t.items, PagesKey);
      if i == -1 {
        AppendKeepsDistinctKeys(t.items, Bucket([e]));
        assert forall j :: 0 <= j < |t.items| ==> t'.items[j] == t.items[j];
      } else {
        UpdateKeepsDistinctKeys(t.items, i, Bucket(t.items[i].pages + [e]));
        assert forall j :: 0 <= j < |t.items| && j != i ==> t'.items[j] == t.items[j];
      }
    } else {
      var i := IndexOfKey(t.items, loc[0]);
      if i == -1 {
        InsertAtKeepsWellKeyed(Empty, loc[1..], e);
        var n := InsertAt(Empty, loc[1..], e).value;
        AppendKeepsDistinctKeys(t.items, Child(loc[0], n));
        assert forall j :: 0 <= j < |t.items| ==> t'.items[j] == t.items[j];
        assert WellKeyedItem(t'.items[|t.items|]);
      } else {
        assert WellKeyedItem(t.items[i]);
        InsertAtKeepsWellKeyed(t.items[i].node, loc[1..], e);
        var n := InsertAt(t.items[i].node, loc[1..], e).value;
        UpdateKeepsDistinctKeys(t.items, i, Child(loc[0], n));
        assert forall j :: 0 <= j < |t.items| && j != i ==> t'.items[j] == t.items[j];
        assert WellKeyedItem(t'.items[i]);
      }
    }
  }

  /** Filing at a place that never names "__pages__" cannot fail, and
      keeps every "__pages__" key a list. */
  lemma {:induction false} InsertAtSucceeds(t: Tree, loc: seq<string>, e: PageRecord)
    requires NoPagesChild(t)
    requires PagesKey !in loc
    ensures InsertAt(t, loc, e).Some?
    ensures NoPagesChild(InsertAt(t, loc, e).value)
    decreases |loc|
  {
    if |loc| == 0 {
      var i := IndexOfKey(t.items, PagesKey);
      if i != -1 {
        assert NoPagesChildItem(t.items[i]);
      }
      var t' := InsertAt(t, loc, e).value;
      assert forall j :: 0 <= j < |t.items| ==> t'.items[j] == t.items[j] || t'.items[j].Bucket?;
    } else {
      assert loc[0] != PagesKey && PagesKey !in loc[1..];
      var i := IndexOfKey(t.items, loc[0]);
      if i == -1 {
        InsertAtSucceeds(Empty, loc[1..], e);
        var t' := InsertAt(t, loc, e).value;
        assert forall j :: 0 <= j < |t.items| ==> t'.items[j] == t.items[j];
        assert NoPagesChildItem(t'.items[|t.items|]);
      } else {
        assert NoPagesChildItem(t.items[i]);
        InsertAtSucceeds(t.items[i].node, loc[1..], e);
        var t' := InsertAt(t, loc, e).value;
        assert forall j :: 0 <= j < |t.items| && j != i ==> t'.items[j] == t.items[j];
        assert NoPagesChildItem(t'.items[i]);
      }
    }
  }

  /** When no URL path has a "__pages__" segment, the tree is built and
      is a well-formed dictionary whose "__pages__" keys all hold lists. */
  lemma {:induction false} BuildTreeSucceeds(pages: seq<PageRecord>)
    requires forall i :: 0 <= i < |pages| ==> PagesKey !in Place(PathOf(pages[i].url))
    ensures BuildTree(pages).Some?
    ensures NoPagesChild(BuildTree(pages).value) && WellKeyed(BuildTree(pages).value)
    decreases |pages|
  {
    if |pages| > 0 {
      var init := pages[..|pages| - 1];
      var last := pages[|pages| - 1];
      assert forall i :: 0 <= i < |init| ==> init[i] == pages[i];
      BuildTreeSucceeds(init);
      InsertAtSucceeds(BuildTree(init).value, Place(PathOf(last.url)), last);
      InsertAtKeepsWellKeyed(BuildTree(init).value, Place(PathOf(last.url)), last);
    }
  }

  /** A page under ".../a/__pages__/" followed by one filed at ".../a"
      crashes the build: the second append meets a dictionary. */
  lemma PagesSegmentCrashesBuild(e1: PageRecord, e2: PageRecord)
    ensures InsertAt(Empty, ["a", PagesKey], e1).Some?
    ensures InsertAt(InsertAt(Empty, ["a", PagesKey], e1).value, ["a"], e2) == None
  {
    var inner := Tree([Bucket([e1])]);
    assert IndexOfKey([], PagesKey) == -1 && IndexOfKey([], "a") == -1;
    assert [] + [Bucket([e1])] == [Bucket([e1])];
    assert [] + [Child(PagesKey, inner)] == [Child(PagesKey, inner)];
    var mid := Tree([Child(PagesKey, inner)]);
    assert ["a", PagesKey][1..] == [PagesKey];
    assert [PagesKey][1..] == [];
    assert InsertAt(Empty, [], e1) == Some(inner);
    assert InsertAt(Empty, [PagesKey], e1) == Some(mid);
    var t := Tree([Child("a", mid)]);
    assert [] + [Child("a", mid)] == [Child("a", mid)];
    assert InsertAt(Empty, ["a", PagesKey], e1) == Some(t);
    assert ["a"][1..] == [];
    assert IndexOfKey(mid.items, PagesKey) == 0;
  }

  // ---- flattening and counting ----

  /** The records of a tree in render order. */
  function Flatten(t: Tree): seq<PageRecord> {
    FlattenItems(t.items)
  }

  function FlattenItems(items: seq<Item>): seq<PageRecord>
    decreases items
  {
    if |items| == 0 then [] else FlattenItem(items[0]) + FlattenItems(items[1..])
  }

  function FlattenItem(it: Item): seq<PageRecord>
    decreases it
  {
    match it
    case Bucket(ps) => ps
    case Child(_, n) => FlattenItems(n.items)
  }

  /** `count_leaf_pages`: the length of every "__pages__" value (the
      number of keys when it is a dictionary) plus the counts of the
      other sub-dictionaries. */
  function CountLeafPages(t: Tree): nat {
    CountItems(t.items)
  }

  function CountItems(items: seq<Item>): nat
    decreases items
  {
    if |items| == 0 then 0 else CountItem(items[0]) + CountItems(items[1..])
  }

  function CountItem(it: Item): nat
    decreases it
  {
    match it
    case Bucket(ps) => |ps|
    case Child(k, n) => if k == PagesKey then |n.items| else CountItems(n.items)
  }

  /** Every "__pages__" key that holds a dictionary holds an empty one:
      exactly the trees `render_list` can render. */
  predicate Renderable(t: Tree)
    decreases t
  {
    forall i :: 0 <= i < |t.items| ==> RenderableItem(t.items[i])
  }

  predicate RenderableItem(it: Item)
    decreases it
  {
    it.Child? ==> (if it.name == PagesKey then it.node.items == [] else Renderable(it.node))
  }

  lemma NoPagesChildIsRenderable(t: Tree)
    requires NoPagesChild(t)
    ensures Renderable(t)
    decreases t
  {
    forall i | 0 <= i < |t.items| ensures RenderableItem(t.items[i]) {
      assert NoPagesChildItem(t.items[i]);
      if t.items[i].Child? {
        NoPagesChildIsRenderable(t.items[i].node);
      }
    }
  }

  /** In a renderable tree the count of a branch is the number of records
      it holds. */
  lemma {:induction false} CountIsFlattenLength(items: seq<Item>)
    requires forall i :: 0 <= i < |items| ==> RenderableItem(items[i])
    ensures CountItems(items) == |FlattenItems(items)|
    decreases items
  {
    if |items| > 0 {
      var it := items[0];
      assert forall i :: 0 <= i < |items[1..]| ==> items[1..][i] == items[i + 1];
      CountIsFlattenLength(items[1..]);
      assert RenderableItem(it);
      if it.Child? {
        if it.name != PagesKey {
          assert Renderable(it.node);
          CountIsFlattenLength(it.node.items);
        } else {
          assert FlattenItems(it.node.items) == [];
        }
      }
    }
  }

  lemma {:induction false} FlattenItemsAppend(a: seq<Item>, b: seq<Item>)
    ensures FlattenItems(a + b) == FlattenItems(a) + FlattenItems(b)
    decreases |a|
  {
    if |a| > 0 {
      assert (a + b)[1..] == a[1..] + b;
      FlattenItemsAppend(a[1..], b);
    } else {
      assert a + b == b;
    }
  }

  lemma FlattenItemsUpdate(items: seq<Item>, i: nat, x: Item)
    requires i < |items|
    ensures multiset(FlattenItems(items[i := x])) + multiset(FlattenItem(items[i]))
            == multiset(FlattenItems(items)) + multiset(FlattenItem(x))
  {
    var pre, post := items[..i], items[i + 1..];
    assert items == pre + ([items[i]] + post);
    assert items[i := x] == pre + ([x] + post);
    FlattenItemsAppend(pre, [items[i]] + post);
    FlattenItemsAppend(pre, [x] + post);
    assert ([items[i]] + post)[1..] == post;
    assert ([x] + post)[1..] == post;
  }

  lemma MultisetCancel<T>(a: multiset<T>, b: multiset<T>, c: multiset<T>, d: multiset<T>)
    requires a + b == c + (b + d)
    ensures a == c + d
  {
    forall x ensures a[x] == (c + d)[x] {
      assert (a + b)[x] == (c + (b + d))[x];
    }
  }

  lemma FlattenItemsSnoc(items: seq<Item>, x: Item)
    ensures FlattenItems(items + [x]) == FlattenItems(items) + FlattenItem(x)
  {
    FlattenItemsAppend(items, [x]);
    assert [x][1..] == [];
  }

  lemma InsertHereFlatten(t: Tree, e: PageRecord)
    requires InsertAt(t, [], e).Some?
    ensures multiset(Flatten(InsertAt(t, [], e).value)) == multiset(Flatten(t)) + multiset{e}
  {
    var i := IndexOfKey(t.items, PagesKey);
    if i == -1 {
      FlattenItemsSnoc(t.items, Bucket([e]));
    } else {
      var ps := t.items[i].pages;
      FlattenItemsUpdate(t.items, i, Bucket(ps + [e]));
      assert FlattenItem(Bucket(ps + [e])) == ps + [e];
      assert multiset(ps + [e]) == multiset(ps) + multiset{e};
      MultisetCancel(multiset(Flatten(InsertAt(t, [], e).value)), multiset(ps), multiset(Flatten(t)), multiset{e});
    }
  }

  lemma InsertChildFlatten(t: Tree, k: string, before: seq<PageRecord>, n: Tree, e: PageRecord, i: int)
    requires -1 <= i < |t.items|
    requires i == -1 ==> before == []
    requires i != -1 ==> t.items[i].Child? && before == Flatten(t.items[i].node)
    requires multiset(Flatten(n)) == multiset(before) + multiset{e}
    ensures var items := if i == -1 then t.items + [Child(k, n)] else t.items[i := Child(k, n)];
            multiset(FlattenItems(items)) == multiset(Flatten(t)) + multiset{e}
  {
    if i == -1 {
      FlattenItemsSnoc(t.items, Child(k, n));
    } else {
      FlattenItemsUpdate(t.items, i, Child(k, n));
      assert FlattenItem(Child(k, n)) == Flatten(n);
      assert FlattenItem(t.items[i]) == before;
      MultisetCancel(multiset(FlattenItems(t.items[i := Child(k, n)])), multiset(before), multiset(Flatten(t)), multiset{e});
    }
  }

  /** Filing adds the record to the tree's contents and removes nothing. */
  lemma {:induction false} InsertAtFlatten(t: Tree, loc: seq<string>, e: PageRecord)
    requires InsertAt(t, loc, e).Some?
    ensures multiset(Flatten(InsertAt(t, loc, e).value)) == multiset(Flatten(t)) + multiset{e}
    decreases |loc|
  {
    if |loc| == 0 {
      InsertHereFlatten(t, e);
    } else {
      var i := IndexOfKey(t.items, loc[0]);
      var sub := if i == -1 then Empty else t.items[i].node;
      InsertAtFlatten(sub, loc[1..], e);
      var n := InsertAt(sub, loc[1..], e).value;
      InsertChildFlatten(t, loc[0], Flatten(sub), n, e, i);
    }
  }

  /** A successful build is the build of all but the last record with
      the last one filed on top. */
  lemma BuildTreeLast(pages: seq<PageRecord>)
    requires |pages| > 0 && BuildTree(pages).Some?
    ensures BuildTree(pages[..|pages| - 1]).Some?
    ensures BuildTree(pages) == InsertAt(BuildTree(pages[..|pages| - 1]).value,
                                         Place(PathOf(pages[|pages| - 1].url)), pages[|pages| - 1])
  {
  }

  lemma MultisetSnoc<T>(s: seq<T>)
    requires |s| > 0
    ensures multiset(s) == multiset(s[..|s| - 1]) + multiset{s[|s| - 1]}
  {
    assert s == s[..|s| - 1] + [s[|s| - 1]];
  }

  /** A built tree holds every record exactly as often as the crawl
      recorded it. */
  lemma {:induction false} BuildTreeKeepsEveryPage(pages: seq<PageRecord>)
    requires BuildTree(pages).Some?
    ensures multiset(Flatten(BuildTree(pages).value)) == multiset(pages)
    decreases |pages|
  {
    if |pages| > 0 {
      var init := pages[..|pages| - 1];
      var last := pages[|pages| - 1];
      BuildTreeLast(pages);
      BuildTreeKeepsEveryPage(init);
      InsertAtFlatten(BuildTree(init).value, Place(PathOf(last.url)), last);
      MultisetSnoc(pages);
    }
  }

  /** When no URL path has a "__pages__" segment, `count_leaf_pages` of
      the built tree is the number of records. */
  lemma BuildTreeCountsEveryPage(pages: seq<PageRecord>)
    requires forall i :: 0 <= i < |pages| ==> PagesKey !in Place(PathOf(pages[i].url))
    ensures BuildTree(pages).Some?
    ensures CountLeafPages(BuildTree(pages).value) == |pages|
  {
    BuildTreeSucceeds(pages);
    var t := BuildTree(pages).value;
    NoPagesChildIsRenderable(t);
    CountIsFlattenLength(t.items);
    BuildTreeKeepsEveryPage(pages);
    assert |multiset(Flatten(t))| == |multiset(pages)|;
  }

  /** With a "__pages__" segment the count is the size of a dictionary
      instead: two records under "/__pages__/a/" count as one. */
  lemma PagesSegmentMiscounts(e1: PageRecord, e2: PageRecord)
    ensures InsertAt(Empty, [PagesKey, "a"], e1).Some?
    ensures var t := InsertAt(Empty, [PagesKey, "a"], e1).value;
            && InsertAt(t, [PagesKey, "a"], e2).Some?
            && CountLeafPages(InsertAt(t, [PagesKey, "a"], e2).value) == 1
  {
    var loc := [PagesKey, "a"];
    assert loc[1..] == ["a"] && ["a"][1..] == [];
    assert IndexOfKey([], PagesKey) == -1 && IndexOfKey([], "a") == -1;
    var leaf1 := Tree([Bucket([e1])]);
    assert [] + [Bucket([e1])] == [Bucket([e1])];
    assert InsertAt(Empty, [], e1) == Some(leaf1);
    var a1 := Tree([Child("a", leaf1)]);
    assert [] + [Child("a", leaf1)] == [Child("a", leaf1)];
    assert InsertAt(Empty, ["a"], e1) == Some(a1);
    var t1 := Tree([Child(PagesKey, a1)]);
    assert [] + [Child(PagesKey, a1)] == [Child(PagesKey, a1)];
    assert InsertAt(Empty, loc, e1) == Some(t1);
    assert IndexOfKey(t1.items, PagesKey) == 0;
    assert IndexOfKey(a1.items, "a") == 0;
    assert IndexOfKey(leaf1.items, PagesKey) == 0;
    var leaf2 := Tree([Bucket([e1, e2])]);
    assert [e1] + [e2] == [e1, e2];
    assert leaf1.items[0 := Bucket([e1] + [e2])] == leaf2.items;
    assert InsertAt(leaf1, [], e2) == Some(leaf2);
    var a2 := Tree([Child("a", leaf2)]);
    assert a1.items[0 := Child("a", leaf2)] == a2.items;
    assert InsertAt(a1, ["a"], e2) == Some(a2);
    var t2 := Tree([Child(PagesKey, a2)]);
    assert t1.items[0 := Child(PagesKey, a2)] == t2.items;
    assert InsertAt(t1, loc, e2) == Some(t2);
    assert t2.items[1..] == [];
    assert CountItem(t2.items[0]) == 1;
    assert CountItems(t2.items) == 1;
  }

  /** The degenerate paths: no path and "/" go under "/", and "//", which
      has no segment, goes to the top-level list. */
  lemma PlaceOfDegeneratePaths()
    ensures Place("") == [RootKey] && Place("/") == [RootKey]
    ensures Place("//") == []
  {
    assert multiset("//")['/'] == 2;
    assert "//"[1..] == "/" && "/"[1..] == "";
  }
}
