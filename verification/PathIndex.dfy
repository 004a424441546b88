/** The tree of devices in the control window: items made on demand, and an index from paths to items. */
module PathIndex {
  import opened Options

  /** Item 0 is the top branch; every other item was made under an earlier one. */
  datatype Item = Item(parent: nat, text: string)

  datatype Index = Index(items: seq<Item>, keys: map<string, nat>, lastPath: string, lastItem: Option<nat>)

  const START := Index([Item(0, "")], map[], "", None)

  /** `npath` with one more component. */
  function Extend(npath: string, c: string): string {
    if npath != "" then npath + ":" + c else c
  }

  function Colon(path: string): (i: nat)
    ensures i <= |path| && ':' !in path[..i] && (i < |path| ==> path[i] == ':')
  {
    if path == "" || path[0] == ':' then 0
    else
      var i := Colon(path[1..]);
      assert path[..i + 1] == [path[0]] + path[1..][..i];
      i + 1
  }

  /** `split(":")`. */
  function Split(path: string): (cs: seq<string>)
    ensures |cs| > 0 && cs[0] == path[..Colon(path)]
    ensures forall c :: c in cs ==> ':' !in c
    decreases |path|
  {
    var i := Colon(path);
    if i == |path| then [path] else [path[..i]] + Split(path[i + 1..])
  }

  /** `lastIndexOf(":", from)`, for a place inside the path. */
  function LastColon(path: string, from: nat): (i: int)
    requires from < |path|
    ensures -1 <= i <= from && (i >= 0 ==> path[i] == ':')
    ensures forall j :: i < j <= from ==> path[j] != ':'
  {
    if path[from] == ':' then from else if from == 0 then -1 else LastColon(path, from - 1)
  }

  /** Where the backward search stops: in front of this place is the part of the path that is known. */
  function Search(keys: map<string, nat>, path: string, idx: nat): (b: nat)
    requires 0 < idx <= |path|
    ensures b < idx && (b != 0 ==> path[b] == ':' && path[..b] in keys)
    ensures forall i :: b < i < idx && path[i] == ':' ==> path[..i] !in keys
  {
    var i := LastColon(path, idx - 1);
    if i <= 0 then 0 else if path[..i] in keys then i else Search(keys, path, i)
  }

  /** `makePath`: a new item for every component; an existing key keeps its item. */
  function Make(x: Index, item: nat, npath: string, cs: seq<string>): (r: (Index, nat))
    ensures cs == [] ==> r == (x, item)
    decreases |cs|
  {
    if cs == [] then (x, item)
    else
      var key := Extend(npath, cs[0]);
      Make(Put(x, item, cs[0], key), |x.items|, key, cs[1..])
  }

  function Put(x: Index, item: nat, text: string, key: string): Index {
    x.(items := x.items + [Item(item, text)], keys := if key in x.keys then x.keys else x.keys[key := |x.items|])
  }

  function Lookup(x: Index, path: string): (Index, nat)
    requires path != ""
  {
    if path in x.keys then (x, x.keys[path])
    else
      var b := Search(x.keys, path, |path|);
      if b == 0 then Make(x, 0, "", Split(path))
      else Make(x, x.keys[path[..b]], path[..b], Split(path[b + 1..]))
  }

  /** `findPath`. */
  function Find(x: Index, path: string): (Index, nat) {
    if x.lastPath == path && x.lastItem.Some? then (x, x.lastItem.value)
    else if path == "" then (x.(lastPath := path, lastItem := Some(0)), 0)
    else
      var (y, item) := Lookup(x, path);
      (y.(lastPath := path, lastItem := Some(item)), item)
  }

  /** The path asked for last is answered from the cache, without looking at the index. */
  lemma FindCaches(x: Index, path: string)
    ensures var (y, item) := Find(x, path);
            y.lastPath == path && y.lastItem == Some(item) && Find(y, path) == (y, item)
            && Find(y.(keys := map[]), path).1 == item
    ensures path != "" && path in x.keys && x.lastPath != path ==>
              Find(x, path) == (x.(lastPath := path, lastItem := Some(x.keys[path])), x.keys[path])
  {
  }

  /* ----- Labels and paths ----- */

  /** The labels from the top down to an item, joined with colons. */
  function PathOf(items: seq<Item>, i: nat): string
    requires i < |items| && Grown(items)
    decreases i
  {
    if i == 0 then ""
    else if items[i].parent == 0 then items[i].text
    else PathOf(items, items[i].parent) + ":" + items[i].text
  }

  /** Labels hold no colon, and those right below the top are not empty. */
  ghost predicate Grown(items: seq<Item>) {
    && |items| > 0
    && forall i :: 0 < i < |items| ==>
         items[i].parent < i && ':' !in items[i].text && (items[i].parent == 0 ==> items[i].text != "")
  }

  /** Every key belongs to the item it spells, and every item has its key. */
  ghost predicate Indexed(x: Index) {
    && Grown(x.items)
    && (forall k :: k in x.keys ==> 0 < x.keys[k] < |x.items| && PathOf(x.items, x.keys[k]) == k)
    && (forall i :: 0 < i < |x.items| ==> PathOf(x.items, i) in x.keys && x.keys[PathOf(x.items, i)] == i)
  }

  /** The item an answer for `path` must be. */
  ghost predicate IsAt(x: Index, path: string, item: nat) {
    if path == "" then item == 0 else path in x.keys && x.keys[path] == item
  }

  ghost predicate Inv(x: Index) {
    Indexed(x) && (x.lastItem.Some? ==> IsAt(x, x.lastPath, x.lastItem.value))
  }

  lemma {:induction false} PathKept(items: seq<Item>, item: Item, i: nat)
    requires Grown(items) && Grown(items + [item]) && i < |items|
    ensures PathOf(items + [item], i) == PathOf(items, i)
    decreases i
  {
    if i != 0 && items[i].parent != 0 { PathKept(items, item, items[i].parent); }
  }

  lemma {:induction false} PathStarts(items: seq<Item>, i: nat)
    requires Grown(items) && 0 < i < |items|
    ensures PathOf(items, i) != "" && PathOf(items, i)[0] != ':'
    decreases i
  {
    if items[i].parent != 0 { PathStarts(items, items[i].parent); }
  }

  /** A part of an item's path that ends in front of a colon is the path of an item. */
  lemma {:induction false} PrefixIsItem(items: seq<Item>, i: nat, n: nat) returns (j: nat)
    requires Grown(items) && 0 < i < |items| && n < |PathOf(items, i)| && PathOf(items, i)[n] == ':'
    ensures 0 < j < |items| && PathOf(items, j) == PathOf(items, i)[..n]
    decreases i
  {
    j := items[i].parent;
    if j != 0 {
      var front := PathOf(items, j);
      if n < |front| {
        var k := PrefixIsItem(items, j, n);
        j := k;
      } else {
        NoColonBehind(front, items[i].text, n);
      }
    }
  }

  lemma NoColonBehind(front: string, text: string, n: nat)
    requires ':' !in text && |front| <= n < |front + ":" + text|
    ensures (front + ":" + text)[n] == ':' ==> n == |front|
  {
    if n > |front| { assert (front + ":" + text)[n] == text[n - |front| - 1]; }
  }

  /** The keys are closed under taking away components. */
  lemma PrefixClosed(x: Index, k: string, n: nat)
    requires Indexed(x) && k in x.keys && n < |k| && k[n] == ':'
    ensures k[..n] in x.keys
  {
    var j := PrefixIsItem(x.items, x.keys[k], n);
  }

  lemma KeysStart(x: Index, k: string)
    requires Indexed(x) && k in x.keys
    ensures k != "" && k[0] != ':'
  {
    PathStarts(x.items, x.keys[k]);
  }

  /* ----- Making items ----- */

  /** What the components spell behind `npath`. */
  function PathAfter(npath: string, cs: seq<string>): string
    decreases |cs|
  {
    if cs == [] then npath else PathAfter(Extend(npath, cs[0]), cs[1..])
  }

  lemma {:induction false} SplitJoins(base: string, sub: string)
    requires base != ""
    ensures PathAfter(base, Split(sub)) == base + ":" + sub
    decreases |sub|
  {
    var i, cs := Colon(sub), Split(sub);
    assert Extend(base, cs[0]) == base + ":" + sub[..i];
    if i == |sub| {
      assert cs[1..] == [] && sub[..i] == sub;
    } else {
      var rest := sub[i + 1..];
      assert cs[1..] == Split(rest);
      SplitJoins(base + ":" + sub[..i], rest);
      Joined(base, sub, i);
    }
  }

  lemma Joined(base: string, sub: string, i: nat)
    requires i < |sub| && sub[i] == ':'
    ensures base + ":" + sub[..i] + ":" + sub[i + 1..] == base + ":" + sub
  {
    assert sub == sub[..i] + ":" + sub[i + 1..];
  }

  lemma SplitWhole(path: string)
    requires path != "" && path[0] != ':'
    ensures PathAfter("", Split(path)) == path && Split(path)[0] != ""
  {
    var i, cs := Colon(path), Split(path);
    assert cs[0] == path[..i] != "";
    if i == |path| {
      assert cs[1..] == [] && path[..i] == path;
    } else {
      assert cs[1..] == Split(path[i + 1..]);
      SplitJoins(path[..i], path[i + 1..]);
      assert path == path[..i] + ":" + path[i + 1..];
    }
  }

  /** One more item under `item`, at a path that is not known yet. */
  lemma PutKeeps(x: Index, item: nat, npath: string, c: string)
    requires Indexed(x) && item < |x.items| && PathOf(x.items, item) == npath
    requires ':' !in c && (npath == "" ==> c != "") && Extend(npath, c) !in x.keys
    ensures var y := Put(x, item, c, Extend(npath, c));
            Indexed(y) && PathOf(y.items, |x.items|) == Extend(npath, c)
  {
    var key := Extend(npath, c);
    var y := Put(x, item, c, key);
    if item != 0 { PathStarts(x.items, item); }
    assert Grown(y.items);
    forall i | 0 <= i < |x.items| ensures PathOf(y.items, i) == PathOf(x.items, i) {
      PathKept(x.items, Item(item, c), i);
    }
    assert PathOf(y.items, |x.items|) == key;
    forall i | 0 < i < |y.items| ensures PathOf(y.items, i) in y.keys && y.keys[PathOf(y.items, i)] == i {
      if i < |x.items| { assert PathOf(x.items, i) in x.keys; }
    }
  }

  /** `k` is `path` with some of its last components taken away, or `path` itself. */
  predicate Leads(k: string, path: string) {
    k <= path && (k == path || path[|k|] == ':')
  }

  lemma LeadsOn(npath: string, c: string, k: string)
    requires npath != "" && Leads(Extend(npath, c), k)
    ensures Leads(npath, k)
  {
  }

  /** Components end at colons. */
  lemma {:induction false} PathAfterLeads(npath: string, cs: seq<string>)
    requires npath != ""
    ensures Leads(npath, PathAfter(npath, cs))
    decreases |cs|
  {
    if cs != [] {
      PathAfterLeads(Extend(npath, cs[0]), cs[1..]);
      LeadsOn(npath, cs[0], PathAfter(npath, cs));
    }
  }

  /** Everything known before is kept; what is new leads up to `path`. */
  ghost predicate Grew(x: Index, y: Index, path: string) {
    && x.items <= y.items
    && (forall k :: k in x.keys ==> k in y.keys && y.keys[k] == x.keys[k])
    && (forall k :: k in y.keys && k !in x.keys ==> Leads(k, path))
  }

  lemma {:induction false} MakeKeeps(x: Index, item: nat, npath: string, cs: seq<string>)
    requires Indexed(x) && item < |x.items| && PathOf(x.items, item) == npath
    requires cs != [] && (forall c :: c in cs ==> ':' !in c) && (npath == "" ==> cs[0] != "")
    requires Extend(npath, cs[0]) !in x.keys
    ensures var (y, j) := Make(x, item, npath, cs);
            Indexed(y) && IsAt(y, PathAfter(npath, cs), j) && Grew(x, y, PathAfter(npath, cs))
            && PathAfter(npath, cs) != "" && |y.items| == |x.items| + |cs|
    decreases |cs|
  {
    hide Indexed;
    var key := Extend(npath, cs[0]);
    var y := Put(x, item, cs[0], key);
    PutKeeps(x, item, npath, cs[0]);
    PathAfterLeads(key, cs[1..]);
    if |cs| == 1 {
      KeyOfNew(y, |x.items|, key);
    } else {
      var next := Extend(key, cs[1]);
      NextUnknown(x, y, key, cs[1]);
      MakeKeeps(y, |x.items|, key, cs[1..]);
      GrewTwice(x, y, Make(y, |x.items|, key, cs[1..]).0, key, PathAfter(key, cs[1..]));
    }
  }

  lemma KeyOfNew(y: Index, item: nat, key: string)
    requires Indexed(y) && 0 < item < |y.items| && PathOf(y.items, item) == key
    ensures key in y.keys && y.keys[key] == item
  {
  }

  /** Below a path that was not known there is nothing known either. */
  lemma NextUnknown(x: Index, y: Index, key: string, c: string)
    requires Indexed(x) && key != "" && key !in x.keys
    requires forall k :: k in y.keys ==> k in x.keys || k == key
    ensures Extend(key, c) !in y.keys
  {
    var next := Extend(key, c);
    assert next[..|key|] == key;
    if next in x.keys { PrefixClosed(x, next, |key|); }
  }

  lemma GrewTwice(x: Index, y: Index, z: Index, key: string, path: string)
    requires Grew(x, y, key) && Grew(y, z, path) && Leads(key, path)
    requires forall k :: k in y.keys && k !in x.keys ==> k == key
    ensures Grew(x, z, path)
  {
  }

  /* ----- Finding paths ----- */

  /** The first component behind the longest known prefix leads to a path that is not known. */
  lemma BehindPrefix(x: Index, path: string, b: nat)
    requires path !in x.keys && path != "" && path[0] != ':' && b < |path| && (b != 0 ==> path[b] == ':')
    requires forall i :: b < i < |path| && path[i] == ':' ==> path[..i] !in x.keys
    ensures b == 0 ==> Extend("", Split(path)[0]) !in x.keys
    ensures b != 0 ==> Extend(path[..b], Split(path[b + 1..])[0]) !in x.keys
  {
    if b == 0 {
      var i := Colon(path);
      if i == |path| { assert path[..i] == path; }
    } else {
      var sub := path[b + 1..];
      var i := Colon(sub);
      assert path[..b] + ":" + sub[..i] == path[..b + 1 + i];
      if i == |sub| {
        assert path[..b + 1 + i] == path;
      } else {
        assert path[b + 1 + i] == sub[i];
      }
    }
  }

  lemma LookupKeeps(x: Index, path: string)
    requires Indexed(x) && path != "" && path[0] != ':'
    ensures var (y, item) := Lookup(x, path);
            Indexed(y) && IsAt(y, path, item) && Grew(x, y, path)
  {
    hide Indexed;
    if path !in x.keys {
      var b := Search(x.keys, path, |path|);
      BehindPrefix(x, path, b);
      if b == 0 {
        SplitWhole(path);
        TopItem(x);
        MakeKeeps(x, 0, "", Split(path));
      } else {
        var base, sub := path[..b], path[b + 1..];
        SplitJoins(base, sub);
        assert path == base + ":" + sub;
        KnownItem(x, base);
        MakeKeeps(x, x.keys[base], base, Split(sub));
      }
    }
  }

  lemma TopItem(x: Index)
    requires Indexed(x)
    ensures |x.items| > 0 && Grown(x.items) && PathOf(x.items, 0) == ""
  {
  }

  lemma KnownItem(x: Index, k: string)
    requires Indexed(x) && k in x.keys
    ensures Grown(x.items) && 0 < x.keys[k] < |x.items| && PathOf(x.items, x.keys[k]) == k
  {
  }

  /** A path that does not start with a colon leads to its own item, now and in every later call. */
  lemma FindPathKeeps(x: Index, path: string)
    requires Inv(x) && (path == "" || path[0] != ':')
    ensures var (y, item) := Find(x, path);
            Inv(y) && IsAt(y, path, item) && Grew(x, y, path)
  {
    hide Indexed, Lookup;
    if path != "" {
      LookupKeeps(x, path);
      var (y, item) := Lookup(x, path);
      OnlyHit(y, path, Some(item));
    }
    OnlyHit(x, path, Some(0));
  }

  lemma OnlyHit(x: Index, path: string, item: Option<nat>)
    requires Indexed(x)
    ensures Indexed(x.(lastPath := path, lastItem := item))
  {
  }

  /** Keys never start with a colon. */
  lemma {:induction false} MakeStarts(x: Index, item: nat, npath: string, cs: seq<string>, k: string)
    requires k != "" && k[0] == ':' && k !in x.keys
    requires (npath != "" ==> npath[0] != ':') && forall c :: c in cs ==> ':' !in c
    ensures k !in Make(x, item, npath, cs).0.keys
    decreases |cs|
  {
    if cs != [] {
      var key := Extend(npath, cs[0]);
      assert ':' !in cs[0];
      if key != "" && npath == "" { assert key[0] in cs[0]; }
      MakeStarts(Put(x, item, cs[0], key), |x.items|, key, cs[1..], k);
    }
  }

  /** A found path is indexed afterwards exactly when it does not start with a colon. */
  lemma FoundAgain(x: Index, path: string)
    requires Inv(x) && path != ""
    ensures path in Find(x, path).0.keys <==> path[0] != ':'
  {
    if path[0] != ':' {
      FindPathKeeps(x, path);
    } else {
      if path in x.keys { KeysStart(x, path); }
      var b := Search(x.keys, path, |path|);
      if b == 0 {
        MakeStarts(x, 0, "", Split(path), path);
      } else {
        KeysStart(x, path[..b]);
      }
    }
  }

  /** Keys, items and cache stay in agreement exactly over look-ups that do not start with a colon. */
  lemma FindPathExactly(x: Index, path: string)
    requires Inv(x)
    ensures Inv(Find(x, path).0) <==> path == "" || path[0] != ':'
  {
    if path == "" || path[0] != ':' {
      FindPathKeeps(x, path);
    } else {
      FoundAgain(x, path);
      if x.lastPath == path && x.lastItem.Some? { KeysStart(x, path); }
    }
  }

  /** After ":a" has been looked up, "a" is answered with the item below the empty label. */
  lemma LeadingColonTakesPath()
    ensures var (y, colonItem) := Find(START, ":a");
            var (z, item) := Find(y, "a");
            && item == colonItem && item < |z.items|
            && z.items[item].text == "a" && z.items[item].parent != 0
            && z.items[item].parent < |z.items| && z.items[z.items[item].parent].text == ""
  {
    assert Colon(":a") == 0 && ":a"[1..] == "a" && Colon("a") == 1;
    assert Split("a") == ["a"] && Split(":a") == [""] + ["a"];
    assert LastColon(":a", 1) == 0 && Search(START.keys, ":a", 2) == 0;
    var y1 := Put(START, 0, "", "");
    var y2 := Put(y1, 1, "a", "a");
    assert [""] + ["a"] == ["", "a"] && ["", "a"][1..] == ["a"] && ["a"][1..] == [];
    assert Make(y1, 1, "", ["a"]) == (y2, 2);
    assert Lookup(START, ":a") == (y2, 2);
    assert "a" in y2.keys && y2.keys["a"] == 2;
  }

  /* ----- Runs ----- */

  function RunFind(x: Index, paths: seq<string>): Index
    decreases |paths|
  {
    if paths == [] then x else RunFind(Find(x, paths[0]).0, paths[1..])
  }

  lemma {:induction false} RunKeepsInv(x: Index, paths: seq<string>)
    requires Inv(x) && forall p :: p in paths ==> p == "" || p[0] != ':'
    ensures Inv(RunFind(x, paths)) && x.items <= RunFind(x, paths).items
    ensures forall k :: k in x.keys ==> k in RunFind(x, paths).keys && RunFind(x, paths).keys[k] == x.keys[k]
    decreases |paths|
  {
    hide Inv, Find;
    if paths != [] {
      FindPathKeeps(x, paths[0]);
      RunKeepsInv(Find(x, paths[0]).0, paths[1..]);
    }
  }

  /** In every run from the empty window: one item for every path, one path for every item, no gaps. */
  lemma TreeIsIndexed(paths: seq<string>)
    requires forall p :: p in paths ==> p == "" || p[0] != ':'
    ensures var x := RunFind(START, paths);
            && Grown(x.items)
            && (forall k :: k in x.keys ==> 0 < x.keys[k] < |x.items| && PathOf(x.items, x.keys[k]) == k)
            && (forall i :: 0 < i < |x.items| ==> PathOf(x.items, i) in x.keys && x.keys[PathOf(x.items, i)] == i)
            && (forall k, n :: k in x.keys && 0 <= n < |k| && k[n] == ':' ==> k[..n] in x.keys)
            && (x.lastItem.Some? && x.lastPath in x.keys ==> x.keys[x.lastPath] == x.lastItem.value)
  {
    RunKeepsInv(START, paths);
    var x := RunFind(START, paths);
    forall k, n | k in x.keys && 0 <= n < |k| && k[n] == ':' ensures k[..n] in x.keys {
      PrefixClosed(x, k, n);
    }
    if x.lastItem.Some? && x.lastPath in x.keys { KeysStart(x, x.lastPath); }
  }

  /** The same path is given the same item whatever is looked up in between. */
  lemma SameItemAgain(x: Index, path: string, between: seq<string>)
    requires Inv(x) && (path == "" || path[0] != ':') && forall p :: p in between ==> p == "" || p[0] != ':'
    ensures Find(RunFind(Find(x, path).0, between), path).1 == Find(x, path).1
    ensures Find(RunFind(Find(x, path).0, between), path).0.items
            == RunFind(Find(x, path).0, between).items
  {
    var y := Find(x, path).0;
    FindPathKeeps(x, path);
    RunKeepsInv(y, between);
  }

  /* ----- The window ----- */

  class GenericWindow {
    var items: seq<Item>
    var treeList: map<string, nat>
    var lastPath: string
    var lastItem: Option<nat>

    ghost function State(): Index
      reads this
    {
      Index(items, treeList, lastPath, lastItem)
    }

    constructor ()
      ensures State() == START
    {
      items, treeList, lastPath, lastItem := [Item(0, "")], map[], "", None;
    }

    method MakePath(base: nat, basePath: string, subPath: string) returns (item: nat)
      modifies this`items, this`treeList
      ensures (State(), item) == Make(old(State()), base, basePath, Split(subPath))
    {
      var npath := basePath;
      item := base;
      var spath := Split(subPath);
      for x := 0 to |spath|
        invariant Make(State(), item, npath, spath[x..]) == Make(old(State()), base, basePath, spath)
      {
        ghost var before, key := State(), Extend(npath, spath[x]);
        ghost var under := item;
        if npath != "" { npath := npath + ":"; }
        npath := npath + spath[x];
        assert spath[x..][0] == spath[x] && spath[x..][1..] == spath[x + 1..];
        var newItem := |items|;
        items := items + [Item(item, spath[x])];
        if npath !in treeList { treeList := treeList[npath := newItem]; }
        item := newItem;
        assert npath == key && State() == Put(before, under, spath[x], key);
      }
    }

    method FindPath(path: string) returns (item: nat)
      modifies this
      ensures (State(), item) == Find(old(State()), path)
    {
      if lastPath == path && lastItem.Some? { return lastItem.value; }
      lastPath := path;
      if path == "" {
        lastItem := Some(0);
        return 0;
      }
      if path in treeList {
        lastItem := Some(treeList[path]);
        return treeList[path];
      }
      var idx: int, found := |path|, false;
      var basePath, subPath := "", path;
      item := 0;
      while !found
        invariant !found ==> 0 < idx <= |path| && Search(treeList, path, idx) == Search(treeList, path, |path|)
        invariant found ==> var b := Search(treeList, path, |path|);
                    if b == 0 then item == 0 && basePath == "" && subPath == path
                    else item == treeList[path[..b]] && basePath == path[..b] && subPath == path[b + 1..]
        invariant State() == old(State()).(lastPath := path)
        decreases if found then 0 else 1, idx
      {
        idx := LastColon(path, idx - 1);
        if idx <= 0 {
          basePath, subPath, item, found := "", path, 0, true;
        } else {
          basePath, subPath := path[..idx], path[idx + 1..];
          if basePath in treeList {
            item, found := treeList[basePath], true;
          }
        }
      }
      MakeIgnoresHit(State(), old(State()), item, basePath, Split(subPath));
      item := MakePath(item, basePath, subPath);
      lastItem := Some(item);
    }
  }

  /** Making items does not look at the last hit. */
  lemma {:induction false} MakeIgnoresHit(y: Index, x: Index, item: nat, npath: string, cs: seq<string>)
    requires y == x.(lastPath := y.lastPath, lastItem := y.lastItem)
    ensures var (z, i) := Make(x, item, npath, cs);
            Make(y, item, npath, cs) == (z.(lastPath := y.lastPath, lastItem := y.lastItem), i)
    decreases |cs|
  {
    if cs != [] {
      var key := Extend(npath, cs[0]);
      MakeIgnoresHit(Put(y, item, cs[0], key), Put(x, item, cs[0], key), |x.items|, key, cs[1..]);
    }
  }
}
