/// Owned rules, the checks that compare them with a kernel listing, and the
/// order in which a batch is issued (src/runtime/rules.rs, pure part).
module Rules {
  import opened Strings
  import opened Wrappers

  type Uid = n: nat | n < 0x1_0000_0000

  /** A record as the ledger saves it and as the kernel lists it. A listing
      carries no owner: its `moduleId` is empty. */
  datatype Rule = Rule(moduleId: string, virtualPath: string, realPath: string, flags: bv32, uid: Uid)

  /** What the kernel indexes a rule by. */
  datatype Key = Key(path: string, uid: Uid)

  /** What an owned operation means: its source and its flags without the bits
      that the kernel derives from directory topology. */
  datatype Payload = Payload(realPath: string, core: CoreFlags)

  const FLAG_VIRTUAL_DIR: bv32 := 2
  const DERIVED_FLAGS: bv32 := 1 | FLAG_VIRTUAL_DIR

  type CoreFlags = f: bv32 | f & DERIVED_FLAGS == 0

  datatype RuleError =
    | OwnedRuleMissing(key: Key)
    | DuplicateOwnedRule(key: Key)
    | ForeignConflict(owned: Key, foreign: Key)
    | ObsoleteRemains(key: Key)
    | KernelFault

  datatype Outcome = Pass | Fail(error: RuleError)

  function Core(flags: bv32): CoreFlags {
    flags & !DERIVED_FLAGS
  }

  function KeyOf(rule: Rule): Key {
    Key(rule.virtualPath, rule.uid)
  }

  function PayloadOf(rule: Rule): Payload {
    Payload(rule.realPath, Core(rule.flags))
  }

  predicate SameKey(left: Rule, right: Rule) {
    left.uid == right.uid && left.virtualPath == right.virtualPath
  }

  predicate SemanticEqual(expected: Rule, actual: Rule) {
    && SameKey(expected, actual)
    && expected.realPath == actual.realPath
    && Core(expected.flags) == Core(actual.flags)
  }

  /** A directory the kernel keeps only to connect surviving child rules. */
  predicate DerivedParent(rule: Rule) {
    rule.flags & FLAG_VIRTUAL_DIR != 0 && Core(rule.flags) == 0 && rule.realPath == ""
  }

  /** A payload that a derived parent could also show. */
  predicate Derivable(p: Payload) {
    p.realPath == "" && p.core == 0
  }

  predicate Ancestor(parent: string, child: string) {
    parent != child && parent <= child && (parent == "/" || "/" <= child[|parent|..])
  }

  /** A path is above another one if a slash separates it from the rest. */
  lemma AncestorMeans(parent: string, child: string)
    ensures Ancestor(parent, child) <==> child != parent && (if parent == "/" then "/" else parent + "/") <= child
  {
    if Ancestor(parent, child) && parent != "/" {
      assert child == parent + child[|parent|..] && child[|parent|..][0] == '/';
      assert child[..|parent| + 1] == parent + "/";
    }
    if parent + "/" <= child {
      assert child[|parent|] == (parent + "/")[|parent|] == '/' && child[..|parent|] == parent;
    }
  }

  /** The lowest two flag bits never count: they say how the kernel came to the rule. */
  lemma CoreBits(flags: bv32)
    ensures Core(flags) == flags & 0xFFFF_FFFC
  {
  }

  /** A derived parent has the second flag bit, maybe the first, and no source. */
  lemma DerivedBits(r: Rule)
    ensures DerivedParent(r) <==> (r.flags == 2 || r.flags == 3) && r.realPath == ""
  {
  }

  // --- Maps of live rules -------------------------------------------------

  type Live = map<Key, Payload>

  function Look(m: Live, k: Key): Option<Payload> {
    if k in m then Some(m[k]) else None
  }

  function KeysOf(rules: seq<Rule>): set<Key> {
    set r | r in rules :: KeyOf(r)
  }

  /** The map left by putting `rules` into `m` in order. */
  function PutAll(m: Live, rules: seq<Rule>): Live {
    if rules == [] then m
    else PutAll(m, rules[..|rules|-1])[KeyOf(rules[|rules|-1]) := PayloadOf(rules[|rules|-1])]
  }

  /** The rules as a map; with unique keys every rule is found under its key. */
  function Table(rules: seq<Rule>): Live {
    PutAll(map[], rules)
  }

  lemma {:induction false} PutAllAt(m: Live, rules: seq<Rule>, k: Key)
    ensures Look(PutAll(m, rules), k) == if k in Table(rules) then Some(Table(rules)[k]) else Look(m, k)
    ensures k in Table(rules) <==> k in KeysOf(rules)
    ensures k in Table(rules) ==> exists r :: r in rules && KeyOf(r) == k && PayloadOf(r) == Table(rules)[k]
  {
    if rules != [] {
      var last := rules[|rules|-1];
      var init := rules[..|rules|-1];
      PutAllAt(m, init, k);
      assert rules == init + [last];
      if KeyOf(last) == k {
        assert last in rules;
      } else if k in Table(init) {
        var r :| r in init && KeyOf(r) == k && PayloadOf(r) == Table(init)[k];
        assert r in rules;
      }
      assert forall r :: r in rules <==> r in init || r == last;
    }
  }

  predicate UniqueKeys(rules: seq<Rule>) {
    forall i, j :: 0 <= i < j < |rules| ==> KeyOf(rules[i]) != KeyOf(rules[j])
  }

  lemma TableOfMember(rules: seq<Rule>, r: Rule)
    requires UniqueKeys(rules) && r in rules
    ensures KeyOf(r) in Table(rules) && Table(rules)[KeyOf(r)] == PayloadOf(r)
  {
    PutAllAt(map[], rules, KeyOf(r));
    var s :| s in rules && KeyOf(s) == KeyOf(r) && PayloadOf(s) == Table(rules)[KeyOf(r)];
    var i :| 0 <= i < |rules| && rules[i] == r;
    var j :| 0 <= j < |rules| && rules[j] == s;
    assert i == j;
  }

  /** Two tables that differ at most in entries a derived parent could show. */
  ghost predicate SolidEqual(a: Live, b: Live) {
    forall k :: SolidAt(a, k) == SolidAt(b, k)
  }

  function SolidAt(m: Live, k: Key): Option<Payload> {
    if k in m && !Derivable(m[k]) then Some(m[k]) else None
  }

  // --- Listings -----------------------------------------------------------

  /** `rows` is a possible readback of `live`: every live rule is shown with its
      payload, and any further row is a parent the kernel derived. The derived
      bits, the derived parents and the row order are the kernel's choice. */
  ghost predicate Listing(rows: seq<Rule>, live: Live) {
    && (forall r :: r in rows ==>
          if KeyOf(r) in live then PayloadOf(r) == live[KeyOf(r)] else DerivedParent(r))
    && (forall k :: k in live ==> k in KeysOf(rows))
  }

  /** A listing as one readback may return it: `plain` ones show no derived parents. */
  ghost predicate Readback(rows: seq<Rule>, live: Live, plain: bool) {
    Listing(rows, live) && (plain ==> forall r :: r in rows ==> KeyOf(r) in live)
  }

  lemma RowOf(rows: seq<Rule>, live: Live, k: Key) returns (row: Rule)
    requires Listing(rows, live) && k in live
    ensures row in rows && KeyOf(row) == k && PayloadOf(row) == live[k]
  {
    row :| row in rows && KeyOf(row) == k;
  }

  lemma DerivedIsDerivable(r: Rule)
    ensures DerivedParent(r) ==> Derivable(PayloadOf(r))
  {
  }

  predicate Shown(rows: seq<Rule>, rule: Rule) {
    exists actual :: actual in rows && SemanticEqual(rule, actual)
  }

  /** A readback shows a rule whenever it is live; it shows a rule that is not
      live only when a derived parent has the same payload. */
  lemma ShownMeansLive(rows: seq<Rule>, live: Live, rule: Rule)
    requires Listing(rows, live)
    ensures Look(live, KeyOf(rule)) == Some(PayloadOf(rule)) ==> Shown(rows, rule)
    ensures Shown(rows, rule) ==>
              || Look(live, KeyOf(rule)) == Some(PayloadOf(rule))
              || (KeyOf(rule) !in live && Derivable(PayloadOf(rule)))
  {
    if Look(live, KeyOf(rule)) == Some(PayloadOf(rule)) {
      var row := RowOf(rows, live, KeyOf(rule));
      assert SemanticEqual(rule, row);
    }
    if Shown(rows, rule) {
      var row :| row in rows && SemanticEqual(rule, row);
      assert KeyOf(row) == KeyOf(rule) && PayloadOf(row) == PayloadOf(rule);
      DerivedIsDerivable(row);
    }
  }

  function VerifyPresent(current: seq<Rule>, expected: seq<Rule>): (o: Outcome)
    ensures o.Pass? <==> forall r :: r in expected ==> Shown(current, r)
    ensures o.Fail? ==> o.error.OwnedRuleMissing? && o.error.key in KeysOf(expected)
  {
    if expected == [] then Pass
    else if !Shown(current, expected[0]) then
      assert expected[0] in expected;
      Fail(OwnedRuleMissing(KeyOf(expected[0])))
    else
      var rest := VerifyPresent(current, expected[1..]);
      assert forall r :: r in expected <==> r == expected[0] || r in expected[1..];
      rest
  }

  /** An obsolete rule that is still live and is not a derived parent. */
  ghost predicate Remains(current: seq<Rule>, expected: seq<Rule>, stale: Rule) {
    && (forall r :: r in expected ==> !SameKey(r, stale))
    && (exists r :: r in current && SameKey(r, stale) && !DerivedParent(r))
  }

  function VerifyNoneRemain(current: seq<Rule>, expected: seq<Rule>, obsolete: seq<Rule>): (o: Outcome)
    ensures o.Pass? <==> forall r :: r in obsolete ==> !Remains(current, expected, r)
    ensures o.Fail? ==> o.error.ObsoleteRemains?
  {
    if obsolete == [] then Pass
    else if !(exists r :: r in expected && SameKey(r, obsolete[0]))
         && (exists r :: r in current && SameKey(r, obsolete[0]) && !DerivedParent(r)) then
      assert obsolete[0] in obsolete && Remains(current, expected, obsolete[0]);
      Fail(ObsoleteRemains(KeyOf(obsolete[0])))
    else
      var rest := VerifyNoneRemain(current, expected, obsolete[1..]);
      assert forall r :: r in obsolete <==> r == obsolete[0] || r in obsolete[1..];
      rest
  }

  function VerifyResult(current: seq<Rule>, expected: seq<Rule>, obsolete: seq<Rule>): (o: Outcome)
    ensures o.Pass? <==>
              && (forall r :: r in expected ==> Shown(current, r))
              && (forall r :: r in obsolete ==> !Remains(current, expected, r))
  {
    var present := VerifyPresent(current, expected);
    if present.Fail? then present else VerifyNoneRemain(current, expected, obsolete)
  }

  // --- Batch order --------------------------------------------------------

  function Depth(path: string): nat {
    if path == "" then 0 else (if path[0] == '/' then 1 else 0) + Depth(path[1..])
  }

  /** The comparison of the sort, as "not greater". */
  predicate Precedes(a: Rule, b: Rule, deepestFirst: bool) {
    var da, db := Depth(a.virtualPath), Depth(b.virtualPath);
    if da != db then (if deepestFirst then db < da else da < db)
    else if a.virtualPath != b.virtualPath then LexLeq(a.virtualPath, b.virtualPath)
    else a.uid <= b.uid
  }

  function Insert(r: Rule, rules: seq<Rule>, deepestFirst: bool): seq<Rule> {
    if rules == [] || Precedes(r, rules[0], deepestFirst) then [r] + rules
    else [rules[0]] + Insert(r, rules[1..], deepestFirst)
  }

  function Ordered(rules: seq<Rule>, deepestFirst: bool): seq<Rule> {
    if rules == [] then [] else Insert(rules[0], Ordered(rules[1..], deepestFirst), deepestFirst)
  }

  lemma PrecedesTotal(a: Rule, b: Rule, d: bool)
    ensures Precedes(a, b, d) || Precedes(b, a, d)
  {
    LexTotal(a.virtualPath, b.virtualPath);
  }

  lemma PrecedesTransitive(a: Rule, b: Rule, c: Rule, d: bool)
    requires Precedes(a, b, d) && Precedes(b, c, d)
    ensures Precedes(a, c, d)
  {
    var x, y, z := a.virtualPath, b.virtualPath, c.virtualPath;
    if LexLeq(x, y) && LexLeq(y, z) { LexTransitive(x, y, z); }
    if LexLeq(x, y) && LexLeq(y, x) { LexAntisymmetric(x, y); }
  }

  predicate SortedRules(rules: seq<Rule>, d: bool) {
    forall i, j :: 0 <= i < j < |rules| ==> Precedes(rules[i], rules[j], d)
  }

  lemma {:induction false} InsertKeepsAll(r: Rule, rules: seq<Rule>, d: bool)
    ensures multiset(Insert(r, rules, d)) == multiset(rules) + multiset{r}
  {
    if rules != [] && !Precedes(r, rules[0], d) {
      InsertKeepsAll(r, rules[1..], d);
      assert rules == [rules[0]] + rules[1..];
    }
  }

  lemma {:induction false} InsertSorts(r: Rule, rules: seq<Rule>, d: bool)
    requires SortedRules(rules, d)
    ensures SortedRules(Insert(r, rules, d), d)
    ensures multiset(Insert(r, rules, d)) == multiset(rules) + multiset{r}
  {
    InsertKeepsAll(r, rules, d);
    if rules == [] {
    } else if Precedes(r, rules[0], d) {
      forall j | 0 <= j < |rules| ensures Precedes(r, rules[j], d) {
        if j > 0 { PrecedesTransitive(r, rules[0], rules[j], d); }
      }
    } else {
      var rest := Insert(r, rules[1..], d);
      InsertSorts(r, rules[1..], d);
      PrecedesTotal(r, rules[0], d);
      hide Precedes;
      forall j | 0 <= j < |rest| ensures Precedes(rules[0], rest[j], d) {
        assert rest[j] in multiset(rest);
        assert rest[j] == r || rest[j] in rules[1..];
      }
    }
  }

  /** `Ordered` sorts: it is a permutation, in the order of the comparison. */
  lemma {:induction false} OrderedSorts(rules: seq<Rule>, d: bool)
    ensures SortedRules(Ordered(rules, d), d)
    ensures multiset(Ordered(rules, d)) == multiset(rules)
  {
    if rules != [] {
      OrderedSorts(rules[1..], d);
      InsertSorts(rules[0], Ordered(rules[1..], d), d);
      assert rules == [rules[0]] + rules[1..];
    }
  }

  lemma OrderedMembers(rules: seq<Rule>, d: bool)
    ensures forall r :: r in Ordered(rules, d) <==> r in rules
    ensures KeysOf(Ordered(rules, d)) == KeysOf(rules)
    ensures |Ordered(rules, d)| == |rules|
  {
    OrderedSorts(rules, d);
    forall r ensures r in Ordered(rules, d) <==> r in rules {
      assert r in Ordered(rules, d) <==> r in multiset(Ordered(rules, d));
      assert r in rules <==> r in multiset(rules);
    }
    assert |multiset(Ordered(rules, d))| == |multiset(rules)|;
  }

  lemma {:induction false} DepthConcat(a: string, b: string)
    ensures Depth(a + b) == Depth(a) + Depth(b)
  {
    if a == "" {
      assert a + b == b;
    } else {
      DepthConcat(a[1..], b);
      assert (a + b)[1..] == a[1..] + b;
    }
  }

  /** A descendant is deeper, except that the root is as deep as its direct children. */
  lemma DescendantIsDeeper(parent: string, child: string)
    requires Ancestor(parent, child)
    ensures Depth(parent) <= Depth(child)
    ensures Depth(parent) < Depth(child) <==> parent != "/" || Depth(child) > 1
    ensures LexLeq(parent, child) && !LexLeq(child, parent)
  {
    DepthConcat(parent, child[|parent|..]);
    assert child == parent + child[|parent|..];
    assert "/"[1..] == "" && Depth("/") == 1;
    PrefixIsLeq(parent, child);
    if LexLeq(child, parent) { LexAntisymmetric(child, parent); }
  }

  /** However far a put batch got, no rule was put before its ancestors. */
  lemma PutBatchRespectsTopology(rules: seq<Rule>, n: nat, parent: Rule, child: Rule)
    requires parent in rules && child in rules && Ancestor(parent.virtualPath, child.virtualPath)
    requires n <= |Ordered(rules, false)|
    ensures child in Ordered(rules, false)[..n] ==> parent in Ordered(rules, false)[..n]
  {
    DescendantIsDeeper(parent.virtualPath, child.virtualPath);
    OrderedSorts(rules, false);
    OrderedMembers(rules, false);
    if child in Ordered(rules, false)[..n] {
      EarlierInPrefix(Ordered(rules, false), false, n, child, parent);
    }
  }

  /** Whether a delete batch can stop nowhere with the parent gone and the child left. */
  ghost predicate ChildGoesFirst(rules: seq<Rule>, parent: Rule, child: Rule) {
    forall n :: 0 <= n <= |Ordered(rules, true)| ==>
      parent in Ordered(rules, true)[..n] ==> child in Ordered(rules, true)[..n]
  }

  /** A delete batch takes a child before its parent exactly when the parent is not
      the root or the child is not one of its direct children. */
  lemma DeleteBatchRespectsTopology(rules: seq<Rule>, parent: Rule, child: Rule)
    requires parent in rules && child in rules && Ancestor(parent.virtualPath, child.virtualPath)
    ensures ChildGoesFirst(rules, parent, child) <==> parent.virtualPath != "/" || Depth(child.virtualPath) > 1
  {
    var ordered := Ordered(rules, true);
    DescendantIsDeeper(parent.virtualPath, child.virtualPath);
    OrderedSorts(rules, true);
    OrderedMembers(rules, true);
    if Depth(parent.virtualPath) < Depth(child.virtualPath) {
      forall n | 0 <= n <= |ordered| && parent in ordered[..n] ensures child in ordered[..n] {
        EarlierInPrefix(ordered, true, n, parent, child);
      }
    } else {
      var i :| 0 <= i < |ordered| && ordered[i] == parent;
      assert ordered[..i+1][i] == parent;
      forall j | 0 <= j <= i ensures ordered[j] != child {
        if j < i { assert Precedes(ordered[j], parent, true); }
      }
      assert child !in ordered[..i+1];
    }
  }

  /** Whether a path is one component below the root. */
  predicate OnRoot(parent: string, child: string) {
    parent == "/" && forall i :: 1 <= i < |child| ==> child[i] != '/'
  }

  lemma {:induction false} DepthOfNone(path: string)
    ensures Depth(path) == 0 <==> forall i :: 0 <= i < |path| ==> path[i] != '/'
  {
    if path != "" {
      DepthOfNone(path[1..]);
      assert forall i :: 1 <= i < |path| ==> path[i] == path[1..][i - 1];
      assert forall i :: 0 <= i < |path| - 1 ==> path[1..][i] == path[i + 1];
    }
  }

  lemma OnlyRootIsLevel(parent: string, child: string)
    requires Ancestor(parent, child)
    ensures OnRoot(parent, child) <==> parent == "/" && Depth(child) == 1
  {
    if parent == "/" {
      DepthOfNone(child[1..]);
      assert child[0] == '/' && Depth(child) == 1 + Depth(child[1..]);
      assert forall i :: 1 <= i < |child| ==> child[i] == child[1..][i - 1];
      assert forall i :: 0 <= i < |child| - 1 ==> child[1..][i] == child[i + 1];
    }
  }

  /** Every rule that was not live before has come after its parents. */
  ghost predicate PutInOrder(was: Live, now: Live, rules: seq<Rule>) {
    forall p, c :: p in rules && c in rules && Ancestor(p.virtualPath, c.virtualPath) ==>
      Look(now, KeyOf(c)) == Some(PayloadOf(c)) && Look(was, KeyOf(c)) != Some(PayloadOf(c)) ==>
      Look(now, KeyOf(p)) == Some(PayloadOf(p))
  }

  /** Every rule that is gone has gone after its children, except that the root may
      go before what is directly below it. */
  ghost predicate DeletedInOrder(was: Live, now: Live, rules: seq<Rule>) {
    forall p, c :: p in rules && c in rules && Ancestor(p.virtualPath, c.virtualPath) ==>
      !OnRoot(p.virtualPath, c.virtualPath) && KeyOf(p) in was && KeyOf(p) !in now ==>
      KeyOf(c) !in now
  }

  /** However far a put batch got, its rules came in order. */
  lemma PrefixIsPutInOrder(was: Live, mid: Live, rules: seq<Rule>, n: nat)
    requires UniqueKeys(rules) && n <= |Ordered(rules, false)|
    requires forall r :: r in rules ==>
               Look(mid, KeyOf(r)) == Some(PayloadOf(r)) ==> Look(was, KeyOf(r)) == Some(PayloadOf(r))
    ensures PutInOrder(was, PutAll(mid, Ordered(rules, false)[..n]), rules)
  {
    var batch := Ordered(rules, false)[..n];
    var now := PutAll(mid, batch);
    OrderedMembers(rules, false);
    forall p, c | p in rules && c in rules && Ancestor(p.virtualPath, c.virtualPath)
                  && Look(now, KeyOf(c)) == Some(PayloadOf(c)) && Look(was, KeyOf(c)) != Some(PayloadOf(c))
      ensures Look(now, KeyOf(p)) == Some(PayloadOf(p))
    {
      PutAllAt(mid, batch, KeyOf(c));
      var x :| x in batch && KeyOf(x) == KeyOf(c);
      SameKeySameRule(rules, x, c);
      PutBatchRespectsTopology(rules, n, p, c);
      PutAllAt(mid, batch, KeyOf(p));
      var y :| y in batch && KeyOf(y) == KeyOf(p) && PayloadOf(y) == Table(batch)[KeyOf(p)];
      SameKeySameRule(rules, y, p);
    }
  }

  lemma SameKeySameRule(rules: seq<Rule>, a: Rule, b: Rule)
    requires UniqueKeys(rules) && a in rules && b in rules && KeyOf(a) == KeyOf(b)
    ensures a == b
  {
    var i :| 0 <= i < |rules| && rules[i] == a;
    var j :| 0 <= j < |rules| && rules[j] == b;
    assert i == j;
  }

  /** However far a delete batch got, its rules went in order. */
  lemma PrefixIsDeletedInOrder(was: Live, rules: seq<Rule>, n: nat)
    requires UniqueKeys(rules) && n <= |Ordered(rules, true)|
    ensures DeletedInOrder(was, was - KeysOf(Ordered(rules, true)[..n]), rules)
  {
    var batch := Ordered(rules, true)[..n];
    OrderedMembers(rules, true);
    forall p, c | p in rules && c in rules && Ancestor(p.virtualPath, c.virtualPath)
                  && !OnRoot(p.virtualPath, c.virtualPath) && KeyOf(p) in was && KeyOf(p) in KeysOf(batch)
      ensures KeyOf(c) in KeysOf(batch)
    {
      var x :| x in batch && KeyOf(x) == KeyOf(p);
      SameKeySameRule(rules, x, p);
      DeleteBatchRespectsTopology(rules, p, c);
      OnlyRootIsLevel(p.virtualPath, c.virtualPath);
      DescendantIsDeeper(p.virtualPath, c.virtualPath);
    }
  }

  lemma EarlierInPrefix(s: seq<Rule>, d: bool, n: nat, later: Rule, earlier: Rule)
    requires SortedRules(s, d) && n <= |s| && later in s[..n] && earlier in s
    requires !Precedes(later, earlier, d)
    ensures earlier in s[..n]
  {
    var i :| 0 <= i < n && s[i] == later;
    var j :| 0 <= j < |s| && s[j] == earlier;
    assert j <= i;
    assert s[..n][j] == earlier;
  }

  /** A batch that deletes the root ahead of its child. */
  lemma RootIsNotOrderedAfterItsChild()
    ensures exists parent: Rule, child: Rule ::
              && Ancestor(parent.virtualPath, child.virtualPath)
              && Ordered([parent, child], true)[0] == parent
  {
    var parent := Rule("m", "/", "/src", 0, 0);
    var child := Rule("m", "/a", "/src/a", 0, 0);
    assert Depth("/") == 1 + Depth(""[..]) by { assert "/"[1..] == ""; }
    assert Depth("/a") == 1 by { assert "/a"[1..] == "a"; assert "a"[1..] == ""; }
    assert LexLeq("/", "/a") by { assert "/"[1..] == ""; }
    assert Precedes(parent, child, true);
    assert [parent, child][1..] == [child] && [child][1..] == [];
    assert Ordered([child], true) == [child];
    assert Ordered([parent, child], true) == [parent, child];
    assert Ancestor(parent.virtualPath, child.virtualPath);
  }
}
