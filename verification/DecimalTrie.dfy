/**
  The counting index over the decimals of 32-bit keys.  A ghost `Index` gives the node at
  the end of every digit string that leads anywhere, `bag` the keys inserted.
 */
module DecimalTrie {
  import opened Decimal

  const CHAR_RANGE: nat := 10
  const START_INDEX: nat := 48
  const UINT32: nat := 0x1_0000_0000

  class TrieNode {
    const children: array<TrieNode?>
    var cnt: nat
    var childnum: nat
    var isLeaf: bool

    constructor ()
      ensures fresh(children) && children.Length == CHAR_RANGE
      ensures forall i :: 0 <= i < CHAR_RANGE ==> children[i] == null
      ensures cnt == 0 && childnum == 0 && !isLeaf
    {
      isLeaf, cnt, childnum := false, 0, 0;
      children := new TrieNode?[CHAR_RANGE](_ => null);
    }
  }

  /** The node of each digit string; the nodes and their arrays again as sets, to frame with. */
  datatype Index = Index(paths: map<string, TrieNode>, nodes: set<TrieNode>, arrays: set<array<TrieNode?>>)

  ghost function With(ix: Index, q: string, x: TrieNode): Index
  {
    Index(ix.paths[q := x], ix.nodes + {x}, ix.arrays + {x.children})
  }

  ghost function Lookup(ix: Index, p: string): TrieNode?
  {
    if p in ix.paths then ix.paths[p] else null
  }

  function Shorter(p: string): string
    requires p != ""
  {
    p[..|p| - 1]
  }

  lemma OneMore(s: string, i: nat)
    requires i < |s|
    ensures s[..i] + [s[i]] == s[..i + 1] && s[..i] + [s[i]] <= s
  {
  }

  /** Distinct strings end at distinct nodes, and the strings are closed under taking the last digit away. */
  ghost predicate Tree(ix: Index)
  {
    && "" in ix.paths
    && (forall p :: p in ix.paths ==>
      AllDigits(p) && ix.paths[p] in ix.nodes && ix.paths[p].children in ix.arrays
      && ix.paths[p].children.Length == CHAR_RANGE)
    && (forall p {:trigger Shorter(p)} :: p in ix.paths && p != "" ==> Shorter(p) in ix.paths)
    && (forall p, q :: p in ix.paths && q in ix.paths && p != q ==>
      ix.paths[p] != ix.paths[q] && ix.paths[p].children != ix.paths[q].children)
  }

  /** Every child pointer leads to the node of the string with one digit more. */
  ghost predicate Linked(ix: Index)
    requires Tree(ix)
    reads ix.arrays
  {
    forall p, d {:trigger ix.paths[p].children[d]} :: p in ix.paths && 0 <= d < CHAR_RANGE ==>
      ix.paths[p].children[d] == Lookup(ix, p + [Digit(d)])
  }

  /** How often the key printed as `p` was inserted; strings that print no key count 0. */
  ghost function Count(bag: multiset<nat>, p: string): nat
    requires AllDigits(p)
  {
    if p != "" && ToString(ToNat(p)) == p then bag[ToNat(p)] else 0
  }

  ghost predicate Counted(ix: Index, bag: multiset<nat>)
    requires Tree(ix)
    reads ix.nodes
  {
    forall p {:trigger ix.paths[p].cnt} {:trigger ix.paths[p].isLeaf} :: p in ix.paths ==>
      ix.paths[p].cnt == Count(bag, p) % UINT32 && (ix.paths[p].isLeaf <==> Count(bag, p) > 0)
  }

  /** Some key of `bag` starts with `p`. */
  ghost predicate Leads(bag: multiset<nat>, p: string) { exists k: nat :: k in bag && p <= ToString(k) }

  /** The strings of the index are the prefixes of the decimals of the keys, and of `extra`. */
  ghost predicate Prefixes(ix: Index, bag: multiset<nat>, extra: string)
  {
    && (forall p {:trigger Leads(bag, p)} :: p in ix.paths ==> p <= extra || Leads(bag, p))
    && (forall k: nat :: k in bag ==> k < UINT32 && ToString(k) in ix.paths)
  }

  /** The whole invariant of the index, but for nodes on the way to `extra`. */
  ghost predicate Shape(ix: Index, bag: multiset<nat>, extra: string)
    reads ix.nodes, ix.arrays
  {
    Tree(ix) && Linked(ix) && Counted(ix, bag) && Prefixes(ix, bag, extra)
  }

  /** A new node at the end of `p` with digit `d`. */
  lemma TreeGrows(ix: Index, p: string, d: nat, x: TrieNode)
    requires Tree(ix) && p in ix.paths && d < CHAR_RANGE && p + [Digit(d)] !in ix.paths
    requires x !in ix.nodes && x.children !in ix.arrays && x.children.Length == CHAR_RANGE
    ensures Tree(With(ix, p + [Digit(d)], x))
  {
    var q := p + [Digit(d)];
    assert Shorter(q) == p;
  }

  /** The children after `x` was hung below `p` under digit `d`. */
  ghost predicate Hung(ix: Index, p: string, d: nat, x: TrieNode)
    requires Tree(ix) && x.children.Length == CHAR_RANGE
    reads ix.arrays, x.children
  {
    && (forall q, e {:trigger ix.paths[q].children[e]} :: q in ix.paths && 0 <= e < CHAR_RANGE ==>
      ix.paths[q].children[e] == if q == p && e == d then x else Lookup(ix, q + [Digit(e)]))
    && (forall e :: 0 <= e < CHAR_RANGE ==> x.children[e] == null)
  }

  lemma HungEntry(ix: Index, p: string, d: nat, x: TrieNode, q: string, e: nat)
    requires Tree(ix) && x.children.Length == CHAR_RANGE && Hung(ix, p, d, x)
    requires p in ix.paths && d < CHAR_RANGE && p + [Digit(d)] !in ix.paths
    requires var ix' := With(ix, p + [Digit(d)], x); q in ix'.paths && e < CHAR_RANGE && Tree(ix')
    ensures var ix' := With(ix, p + [Digit(d)], x); ix'.paths[q].children[e] == Lookup(ix', q + [Digit(e)])
  {
    var new', r := p + [Digit(d)], q + [Digit(e)];
    assert Shorter(r) == q && r[|r| - 1] == Digit(e) && Shorter(new') == p && new'[|new'| - 1] == Digit(d);
    assert r == new' ==> q == p && e == d;
    if q == new' {
      assert r in ix.paths ==> q in ix.paths;
    }
  }

  lemma HungLinks(ix: Index, p: string, d: nat, x: TrieNode)
    requires Tree(ix) && x.children.Length == CHAR_RANGE && Hung(ix, p, d, x)
    requires p in ix.paths && d < CHAR_RANGE && p + [Digit(d)] !in ix.paths
    requires Tree(With(ix, p + [Digit(d)], x))
    ensures Linked(With(ix, p + [Digit(d)], x))
  {
    var ix' := With(ix, p + [Digit(d)], x);
    forall q, e | q in ix'.paths && 0 <= e < CHAR_RANGE
      ensures ix'.paths[q].children[e] == Lookup(ix', q + [Digit(e)])
    {
      HungEntry(ix, p, d, x, q, e);
    }
  }

  /** A string that leads nowhere counts nothing. */
  lemma MissingCountsZero(ix: Index, bag: multiset<nat>, extra: string, p: string)
    requires Prefixes(ix, bag, extra) && AllDigits(p) && p !in ix.paths
    ensures Count(bag, p) == 0
  {
  }

  lemma CountedGrows(ix: Index, bag: multiset<nat>, q: string, x: TrieNode)
    requires Tree(ix) && Tree(With(ix, q, x)) && Counted(ix, bag)
    requires AllDigits(q) && Count(bag, q) == 0 && x.cnt == 0 && !x.isLeaf
    ensures Counted(With(ix, q, x), bag)
  {
  }

  lemma PrefixesGrow(ix: Index, bag: multiset<nat>, extra: string, q: string, x: TrieNode)
    requires Prefixes(ix, bag, extra) && q <= extra
    ensures Prefixes(With(ix, q, x), bag, extra)
  {
  }

  lemma Opening(ix: Index, bag: multiset<nat>, extra: string)
    requires Prefixes(ix, bag, "")
    ensures Prefixes(ix, bag, extra)
  {
    forall p | p in ix.paths ensures p <= extra || Leads(bag, p) {
      assert p <= "" ==> p <= extra;
    }
  }

  lemma CountOneMore(bag: multiset<nat>, k: nat, p: string)
    requires AllDigits(p)
    ensures Count(bag + multiset{k}, p) == Count(bag, p) + (if p == ToString(k) then 1 else 0)
  {
    PrintThenRead(k);
  }

  lemma LeadsOneMore(bag: multiset<nat>, k: nat, p: string)
    ensures Leads(bag + multiset{k}, p) <==> Leads(bag, p) || p <= ToString(k)
  {
    if Leads(bag, p) {
      var j: nat :| j in bag && p <= ToString(j);
      assert j in bag + multiset{k};
    }
    if p <= ToString(k) {
      assert k in bag + multiset{k};
    }
  }

  lemma PrefixesMarked(ix: Index, bag: multiset<nat>, k: nat)
    requires Prefixes(ix, bag, ToString(k)) && k < UINT32 && ToString(k) in ix.paths
    ensures Prefixes(ix, bag + multiset{k}, "")
  {
    forall p | p in ix.paths ensures Leads(bag + multiset{k}, p) {
      LeadsOneMore(bag, k, p);
    }
  }

  lemma {:induction false} PrefixLeads(ix: Index, s: string, i: nat)
    requires Tree(ix) && s in ix.paths && i <= |s|
    ensures s[..i] in ix.paths
    decreases |s| - i
  {
    if i < |s| {
      PrefixLeads(ix, s, i + 1);
      assert Shorter(s[..i + 1]) == s[..i];
    } else {
      assert s[..i] == s;
    }
  }

  /** The strings that lead anywhere are "" and the prefixes of the decimals of the keys. */
  lemma LeadsExactly(ix: Index, bag: multiset<nat>, p: string)
    requires Tree(ix) && Prefixes(ix, bag, "")
    ensures p in ix.paths <==> p == "" || Leads(bag, p)
  {
    if Leads(bag, p) {
      var k: nat :| k in bag && p <= ToString(k);
      PrefixLeads(ix, ToString(k), |p|);
      assert ToString(k)[..|p|] == p;
    }
  }

  /** No string of the index is longer than ten digits. */
  lemma PathsAreShort(ix: Index, bag: multiset<nat>, p: string)
    requires Tree(ix) && Prefixes(ix, bag, "") && p in ix.paths
    ensures |p| <= 10
  {
    if !(p <= "") {
      assert Leads(bag, p);
      var k: nat :| k in bag && p <= ToString(k);
      assert Pow10(10) == 10_000_000_000 by { PowersOfTen(); }
      PrintLength(k, 10);
    }
  }

  lemma PowersOfTen()
    ensures Pow10(10) == 10_000_000_000
  {
    assert Pow10(5) == 100_000;
  }

  /** What `Search` answers true for, in numbers: `k`, or any number `k` comes from by dropping last digits. */
  lemma FoundExactly(bag: multiset<nat>, k: nat)
    ensures Leads(bag, ToString(k)) <==> exists j: nat, m: nat :: j in bag && m < |ToString(j)| && Cut(j, m) == k
  {
    if Leads(bag, ToString(k)) {
      var j: nat :| j in bag && ToString(k) <= ToString(j);
      var m := |ToString(j)| - |ToString(k)|;
      CutIsPrefix(j, m);
      assert ToString(j)[..|ToString(k)|] == ToString(k);
      PrintIsInjective(Cut(j, m), k);
    }
    forall j: nat, m: nat | j in bag && m < |ToString(j)| && Cut(j, m) == k ensures Leads(bag, ToString(k)) {
      CutIsPrefix(j, m);
    }
  }

  /** Such a number is found though it was never inserted, and then with count 0. */
  lemma FoundButNeverInserted(k: nat, d: nat)
    requires 0 < k && d < 10
    ensures var bag := multiset{10 * k + d}; Leads(bag, ToString(k)) && bag[k] == 0
  {
    var j := 10 * k + d;
    assert j / 10 == k && j % 10 == d;
    assert ToString(j) == ToString(k) + [Digit(d)];
    assert j in multiset{j};
  }

  ghost function KeysUnder(bag: multiset<nat>, p: string): set<nat> { set k: nat | k in bag && p <= ToString(k) }

  /** The keys under `p` that end there or go on with a digit below `i`. */
  ghost function KeysUpTo(bag: multiset<nat>, p: string, i: nat): set<nat>
  {
    set k: nat | k in bag && p <= ToString(k) && (p == ToString(k) || ToString(k)[|p|] as int - START_INDEX < i)
  }

  lemma KeysAtNode(bag: multiset<nat>, p: string)
    requires AllDigits(p)
    ensures KeysUpTo(bag, p, 0) == if Count(bag, p) > 0 then {ToNat(p)} else {}
    ensures KeysUpTo(bag, p, 0) <= KeysUnder(bag, p)
  {
    forall k: nat | k in bag && p <= ToString(k) ensures p == ToString(k) ==> ToNat(p) == k {
      PrintThenRead(k);
    }
    forall k: nat | k in bag && p <= ToString(k) && p != ToString(k)
      ensures ToString(k)[|p|] as int - START_INDEX >= 0
    {
      assert IsDigit(ToString(k)[|p|]);
    }
  }

  lemma ExtendsWith(p: string, s: string, c: char)
    requires p <= s && p != s
    ensures p + [c] <= s <==> s[|p|] == c
  {
    assert s[..|p|] == p;
  }

  lemma KeysBelowDigit(bag: multiset<nat>, p: string, i: nat)
    requires i < CHAR_RANGE
    ensures KeysUpTo(bag, p, i + 1) == KeysUpTo(bag, p, i) + KeysUnder(bag, p + [Digit(i)])
    ensures KeysUpTo(bag, p, i + 1) <= KeysUnder(bag, p)
  {
    forall k: nat | k in bag
      ensures k in KeysUpTo(bag, p, i + 1) <==> k in KeysUpTo(bag, p, i) || k in KeysUnder(bag, p + [Digit(i)])
    {
      var s := ToString(k);
      if p <= s && p != s {
        ExtendsWith(p, s, Digit(i));
      } else if p + [Digit(i)] <= s {
        assert p <= p + [Digit(i)];
      }
    }
  }

  lemma FitBelowDigit(bag: multiset<nat>, p: string, i: nat)
    requires i < CHAR_RANGE && FitInt(KeysUpTo(bag, p, i))
    ensures FitInt(KeysUpTo(bag, p, i + 1)) <==> FitInt(KeysUnder(bag, p + [Digit(i)]))
    ensures !FitInt(KeysUpTo(bag, p, i + 1)) ==> !FitInt(KeysUnder(bag, p))
    ensures KeysUpTo(bag, p, i + 1) == KeysUpTo(bag, p, i) + KeysUnder(bag, p + [Digit(i)])
  {
    KeysBelowDigit(bag, p, i);
  }

  lemma KeysAllDigits(bag: multiset<nat>, p: string)
    ensures KeysUpTo(bag, p, CHAR_RANGE) == KeysUnder(bag, p)
  {
    forall k: nat | k in bag && p <= ToString(k) && p != ToString(k)
      ensures ToString(k)[|p|] as int - START_INDEX < CHAR_RANGE
    {
      assert IsDigit(ToString(k)[|p|]);
    }
  }

  lemma AllKeysUnder(bag: multiset<nat>)
    ensures KeysUnder(bag, "") == set k: nat | k in bag
  {
  }

  ghost predicate FitInt(keys: set<nat>) { forall k :: k in keys ==> k <= INT_MAX }

  /** `res` is `res0` and the counts of `keys`, but for keys that were there before. */
  ghost predicate Collected(res0: map<nat, nat>, res: map<nat, nat>, bag: multiset<nat>, keys: set<nat>)
  {
    && res.Keys == res0.Keys + keys
    && forall k :: k in res ==> res[k] == if k in res0 then res0[k] else bag[k] % UINT32
  }

  lemma CollectMore(res0: map<nat, nat>, res1: map<nat, nat>, res2: map<nat, nat>, bag: multiset<nat>, a: set<nat>,
                    b: set<nat>)
    requires Collected(res0, res1, bag, a) && Collected(res1, res2, bag, b)
    ensures Collected(res0, res2, bag, a + b)
  {
  }

  /** `insert` of one pair; `unordered_map` keeps what it has. */
  function Inserted(res: map<nat, nat>, k: nat, v: nat): map<nat, nat>
  {
    if k in res then res else res[k := v]
  }

  lemma NothingUnder(bag: multiset<nat>, p: string, res: map<nat, nat>)
    requires !Leads(bag, p)
    ensures FitInt(KeysUnder(bag, p)) && Collected(res, res, bag, KeysUnder(bag, p))
  {
    assert KeysUnder(bag, p) == {};
  }

  class Trie {
    var root: TrieNode
    var size: int
    var dfsStr: string

    ghost var ix: Index
    ghost var bag: multiset<nat>

    ghost predicate Valid()
      reads this, ix.nodes, ix.arrays
    {
      Shape(ix, bag, "") && ix.paths[""] == root
    }

    /** `size_` starts with whatever the memory holds. */
    constructor (garbage: int)
      ensures Valid() && bag == multiset{} && size == garbage && fresh(ix.nodes) && fresh(ix.arrays)
    {
      var r := new TrieNode();
      root := r;
      size := garbage;
      dfsStr := "";
      ix := Index(map["" := r], {r}, {r.children});
      bag := multiset{};
    }

    /** A new node becomes a child of `start`. */
    static method Attach(start: TrieNode, idx: nat, ghost p: string, ghost ix: Index, ghost bag: multiset<nat>)
      returns (node: TrieNode)
      requires Tree(ix) && Linked(ix) && Counted(ix, bag) && p in ix.paths && start == ix.paths[p] && idx < CHAR_RANGE
      modifies start`childnum, start.children
      ensures node.children.Length == CHAR_RANGE && Hung(ix, p, idx, node) && Counted(ix, bag)
      ensures fresh(node) && fresh(node.children) && node.cnt == 0 && !node.isLeaf
    {
      node := new TrieNode();
      start.children[idx] := node;
      start.childnum := start.childnum + 1;
    }

    /** Where `Insert` makes a missing child: the index grows by one node. */
    static method Grow(start: TrieNode, idx: nat, ghost p: string, ghost extra: string,
                       ghost ix: Index, ghost bag: multiset<nat>)
      returns (node: TrieNode)
      requires Shape(ix, bag, extra)
      requires p in ix.paths && start == ix.paths[p] && idx < CHAR_RANGE
      requires p + [Digit(idx)] !in ix.paths && p + [Digit(idx)] <= extra
      modifies start`childnum, start.children
      ensures Shape(With(ix, p + [Digit(idx)], node), bag, extra)
      ensures fresh(node) && fresh(node.children)
    {
      node := Attach(start, idx, p, ix, bag);
      TreeGrows(ix, p, idx, node);
      HungLinks(ix, p, idx, node);
      MissingCountsZero(ix, bag, extra, p + [Digit(idx)]);
      CountedGrows(ix, bag, p + [Digit(idx)], node);
      PrefixesGrow(ix, bag, extra, p + [Digit(idx)], node);
    }

    /** One turn of the loop of `Insert`: the child for digit `ch`, made if it is missing. */
    static method Child(start: TrieNode, ch: char, ghost p: string, ghost extra: string,
                        ghost ix: Index, ghost bag: multiset<nat>)
      returns (next: TrieNode, ghost ix': Index)
      requires Shape(ix, bag, extra)
      requires p in ix.paths && start == ix.paths[p] && IsDigit(ch) && p + [ch] <= extra
      modifies start`childnum, start.children
      ensures Shape(ix', bag, extra) && p + [ch] in ix'.paths && next == ix'.paths[p + [ch]]
      ensures ix'.paths[""] == ix.paths[""]
      ensures fresh(ix'.nodes - ix.nodes) && fresh(ix'.arrays - ix.arrays)
    {
      var idx := ch as int - START_INDEX;
      assert Digit(idx) == ch;
      if start.children[idx] == null {
        next := Grow(start, idx, p, extra, ix, bag);
        ix' := With(ix, p + [ch], next);
      } else {
        next := start.children[idx];
        ix' := ix;
      }
    }

    /** The loop of `Insert`. */
    static method Descend(root: TrieNode, str: string, ghost ix: Index, ghost bag: multiset<nat>)
      returns (start: TrieNode, ghost ix': Index)
      requires Shape(ix, bag, str) && ix.paths[""] == root && AllDigits(str)
      modifies ix.nodes, ix.arrays
      ensures Shape(ix', bag, str) && ix'.paths[""] == root
      ensures str in ix'.paths && start == ix'.paths[str]
      ensures fresh(ix'.nodes - ix.nodes) && fresh(ix'.arrays - ix.arrays)
    {
      start, ix' := root, ix;
      var i := 0;
      while i < |str|
        invariant 0 <= i <= |str| && Shape(ix', bag, str) && ix'.paths[""] == root
        invariant str[..i] in ix'.paths && start == ix'.paths[str[..i]]
        invariant fresh(ix'.nodes - ix.nodes) && fresh(ix'.arrays - ix.arrays)
      {
        OneMore(str, i);
        start, ix' := Child(start, str[i], str[..i], str, ix', bag);
        i := i + 1;
      }
      assert str[..i] == str;
    }

    /** The end of `Insert`: one more of the key. */
    static method Mark(end: TrieNode, ghost k: nat, ghost ix: Index, ghost bag: multiset<nat>)
      requires Tree(ix) && Counted(ix, bag) && ToString(k) in ix.paths && end == ix.paths[ToString(k)]
      modifies end`isLeaf, end`cnt
      ensures Counted(ix, bag + multiset{k})
    {
      end.isLeaf := true;
      end.cnt := (end.cnt + 1) % UINT32;
      forall p | p in ix.paths
        ensures ix.paths[p].cnt == Count(bag + multiset{k}, p) % UINT32
        ensures ix.paths[p].isLeaf <==> Count(bag + multiset{k}, p) > 0
      {
        CountOneMore(bag, k, p);
      }
    }

    /** `Insert` but for `size_`: says whether the key is new. */
    static method Put(root: TrieNode, hashcode: nat, ghost ix: Index, ghost bag: multiset<nat>)
      returns (isNew: bool, ghost ix': Index)
      requires Shape(ix, bag, "") && ix.paths[""] == root && hashcode < UINT32
      modifies ix.nodes, ix.arrays
      ensures Shape(ix', bag + multiset{hashcode}, "") && ix'.paths[""] == root
      ensures isNew <==> hashcode !in bag
      ensures fresh(ix'.nodes - ix.nodes) && fresh(ix'.arrays - ix.arrays)
    {
      var str := ToString(hashcode);
      var start;
      Opening(ix, bag, str);
      start, ix' := Descend(root, str, ix, bag);
      PrintThenRead(hashcode);
      isNew := !start.isLeaf;
      PrefixesMarked(ix', bag, hashcode);
      Mark(start, hashcode, ix', bag);
    }

    method Insert(hashcode: nat)
      requires Valid() && hashcode < UINT32
      modifies this, ix.nodes, ix.arrays
      ensures Valid() && bag == old(bag) + multiset{hashcode}
      ensures size == old(size) + (if hashcode in old(bag) then 0 else 1)
      ensures fresh(ix.nodes - old(ix.nodes)) && fresh(ix.arrays - old(ix.arrays))
      ensures dfsStr == old(dfsStr)
    {
      hide Linked, Counted, Prefixes;
      var isNew;
      isNew, ix := Put(root, hashcode, ix, bag);
      if isNew {
        size := size + 1;
      }
      bag := bag + multiset{hashcode};
    }

    /**
      The source's last test is true wherever it is reached, since `start` is not null
      there: a prefix of a key is found as well as the key.
     */
    method Search(hashcode: nat) returns (found: bool, cnt: nat)
      requires Valid() && hashcode < UINT32
      ensures found <==> Leads(bag, ToString(hashcode))
      ensures cnt == bag[hashcode] % 0x1_0000_0000
    {
      cnt := 0;
      var str := ToString(hashcode);
      var start := root;
      PrintThenRead(hashcode);
      LeadsExactly(ix, bag, str);
      var i := 0;
      while i < |str|
        invariant 0 <= i <= |str|
        invariant str[..i] in ix.paths && start == ix.paths[str[..i]]
      {
        OneMore(str, i);
        var idx := str[i] as int - START_INDEX;
        assert IsDigit(str[i]) && Digit(idx) == str[i];
        if start.children[idx] == null {
          if str in ix.paths {
            PrefixLeads(ix, str, i + 1);
          }
          MissingCountsZero(ix, bag, "", str);
          return false, cnt;
        }
        start := start.children[idx];
        i := i + 1;
      }
      assert str[..i] == str;
      return true, start.cnt;
    }

    /** What `DFS` does at a node before its loop. */
    method Visit(r: TrieNode, res: map<nat, nat>) returns (ok: bool, res': map<nat, nat>)
      requires Valid() && dfsStr in ix.paths && r == ix.paths[dfsStr]
      ensures ok <==> FitInt(KeysUpTo(bag, dfsStr, 0))
      ensures ok ==> Collected(res, res', bag, KeysUpTo(bag, dfsStr, 0))
    {
      KeysAtNode(bag, dfsStr);
      hide KeysUpTo, Prefixes, ToNat, ToString, Count;
      res' := res;
      if r.isLeaf {
        var k := Stoi(dfsStr);
        if k.None? {
          return false, res;
        }
        res' := Inserted(res, k.value, r.cnt);
      }
      ok := true;
    }

    /** One turn of the loop of `DFS`. */
    method Turn(r: TrieNode, i: nat, res: map<nat, nat>) returns (ok: bool, res': map<nat, nat>)
      requires Valid() && dfsStr in ix.paths && r == ix.paths[dfsStr] && i < CHAR_RANGE
      modifies `dfsStr
      ensures Valid()
      ensures ok <==> FitInt(KeysUnder(bag, old(dfsStr) + [Digit(i)]))
      ensures ok ==> dfsStr == old(dfsStr) && Collected(res, res', bag, KeysUnder(bag, dfsStr + [Digit(i)]))
      decreases 11 - |dfsStr|, 0
    {
      LeadsExactly(ix, bag, dfsStr + [Digit(i)]);
      PathsAreShort(ix, bag, dfsStr);
      if dfsStr + [Digit(i)] !in ix.paths { NothingUnder(bag, dfsStr + [Digit(i)], res); }
      hide ToNat, Count, FitInt, Collected, KeysUnder, Leads;
      ok, res' := true, res;
      if r.children[i] != null {
        var child := r.children[i];
        dfsStr := dfsStr + ToString(i);
        ok, res' := DFS(child, res);
        if ok {
          dfsStr := dfsStr[..|dfsStr| - 1];
        }
      }
    }

    /** `ok` is false where `stoi` throws: what is in the map then is not specified. */
    method DFS(r: TrieNode, res: map<nat, nat>) returns (ok: bool, res': map<nat, nat>)
      requires Valid() && dfsStr in ix.paths && r == ix.paths[dfsStr]
      modifies `dfsStr
      ensures Valid()
      ensures ok <==> FitInt(KeysUnder(bag, old(dfsStr)))
      ensures ok ==> dfsStr == old(dfsStr) && Collected(res, res', bag, KeysUnder(bag, dfsStr))
      decreases 11 - |dfsStr|, 1
    {
      hide ToNat, ToString, Count, Collected, KeysUnder, KeysUpTo, Leads;
      ghost var p := dfsStr;
      KeysAtNode(bag, p);
      ok, res' := Visit(r, res);
      var i := 0;
      while ok && i < CHAR_RANGE
        invariant 0 <= i <= CHAR_RANGE && Valid()
        invariant if ok then FitInt(KeysUpTo(bag, p, i)) else !FitInt(KeysUnder(bag, p))
        invariant ok ==> dfsStr == p && Collected(res, res', bag, KeysUpTo(bag, p, i))
      {
        FitBelowDigit(bag, p, i);
        ghost var before := res';
        ok, res' := Turn(r, i, res');
        if ok {
          CollectMore(res, before, res', bag, KeysUpTo(bag, p, i), KeysUnder(bag, p + [Digit(i)]));
        }
        i := i + 1;
      }
      KeysAllDigits(bag, p);
    }

    /** Reading the index back. */
    method Dfs(res: map<nat, nat>) returns (ok: bool, res': map<nat, nat>)
      requires Valid()
      modifies `dfsStr
      ensures Valid()
      ensures ok <==> forall k: nat :: k in bag ==> k < 0x8000_0000
      ensures ok ==> dfsStr == "" && Collected(res, res', bag, set k: nat | k in bag)
      ensures ok && res == map[] ==> res' == map k: nat | k in bag :: bag[k] % UINT32
    {
      hide Linked, Counted, Prefixes, ToNat;
      dfsStr := "";
      AllKeysUnder(bag);
      ok, res' := DFS(root, res);
    }
  }
}
