/** The tree a flat list of (path, value) nodes stands for, twice: by inserting the nodes one after another, and
    by the emitter's rescanning order (document.cpp:10-45). */
module Grouping {
  import opened JsonValues
  import opened Paths

  // A value the way it is written: a document without nodes goes out in one piece, any other one member by member.
  datatype Plan =
    | PNull
    | PBool(b: bool)
    | PInt(n: int)
    | PStr(s: string)
    | PList(elems: seq<Plan>)
    | PEmpty
    | PDoc(members: seq<Member>)
  datatype Tree = Leaf(value: Plan) | Branch(members: seq<Member>)
  datatype Member = Member(key: string, tree: Tree)
  datatype Item = Item(path: Path, value: Plan)

  function PlanJson(p: Plan): Json
    decreases p, 1
  {
    match p
    case PNull => JNull
    case PBool(b) => JBool(b)
    case PInt(n) => JInt(n)
    case PStr(s) => JStr(s)
    case PList(elems) => JArr(PlanJsons(elems))
    case PEmpty => JObj([])
    case PDoc(ms) => JObj(Fields(ms))
  }

  function PlanJsons(ps: seq<Plan>): seq<Json>
    decreases ps, 0
  {
    if ps == [] then [] else [PlanJson(ps[0])] + PlanJsons(ps[1..])
  }

  function TreeJson(t: Tree): Json
    decreases t, 1
  {
    match t
    case Leaf(p) => PlanJson(p)
    case Branch(ms) => JObj(Fields(ms))
  }

  function Fields(ms: seq<Member>): seq<Field>
    decreases ms, 0
  {
    if ms == [] then [] else [Field(ms[0].key, TreeJson(ms[0].tree))] + Fields(ms[1..])
  }

  // ---- by insertion

  // A node without a path has no place in an object.
  function Insert(ms: seq<Member>, path: Path, value: Plan): seq<Member>
    decreases |path|, |ms|
  {
    if path == [] then ms
    else if |path| == 1 then ms + [Member(path[0], Leaf(value))]
    else if ms == [] then [Member(path[0], Branch(Insert([], path[1..], value)))]
    else if ms[0].key == path[0] && ms[0].tree.Branch? then
      [Member(path[0], Branch(Insert(ms[0].tree.members, path[1..], value)))] + ms[1..]
    else [ms[0]] + Insert(ms[1..], path, value)
  }

  function Build(items: seq<Item>): seq<Member> {
    if items == [] then []
    else
      var last := items[|items| - 1];
      Insert(Build(items[..|items| - 1]), last.path, last.value)
  }

  // ---- by rescanning

  predicate Starts(p: Path, k: string) {
    p != [] && p[0] == k
  }

  // The items below key `k`, with `k` taken off.
  function Under(items: seq<Item>, k: string): seq<Item> {
    if items == [] then []
    else if Starts(items[0].path, k) then
      [Item(items[0].path[1..], items[0].value)] + Under(items[1..], k)
    else Under(items[1..], k)
  }

  function Beside(items: seq<Item>, k: string): seq<Item> {
    if items == [] then []
    else if Starts(items[0].path, k) then Beside(items[1..], k)
    else [items[0]] + Beside(items[1..], k)
  }

  function Weight(items: seq<Item>): nat {
    if items == [] then 0 else 1 + |items[0].path| + Weight(items[1..])
  }

  predicate NotInside(p: Path, items: seq<Item>) {
    forall it :: it in items ==> !(it.path < p)
  }

  // No later path is a proper prefix of an earlier one: what the emitter's indexing needs.
  predicate Safe(items: seq<Item>) {
    items == [] || (items[0].path != [] && NotInside(items[0].path, items[1..]) && Safe(items[1..]))
  }

  lemma {:induction false} UnderShrinks(items: seq<Item>, k: string)
    ensures Weight(Under(items, k)) + |Under(items, k)| + Weight(Beside(items, k)) == Weight(items)
  {
    if items != [] { UnderShrinks(items[1..], k); }
  }

  lemma {:induction false} UnderMember(items: seq<Item>, k: string, it: Item)
    requires it in Under(items, k)
    ensures Item([k] + it.path, it.value) in items
  {
    if Starts(items[0].path, k) && it == Item(items[0].path[1..], items[0].value) {
      assert items[0].path == [k] + it.path;
    } else {
      UnderMember(items[1..], k, it);
    }
  }

  lemma {:induction false} BesideMember(items: seq<Item>, k: string, it: Item)
    requires it in Beside(items, k)
    ensures it in items && !Starts(it.path, k)
  {
    if Starts(items[0].path, k) || it != items[0] { BesideMember(items[1..], k, it); }
  }

  lemma NotInsideUnder(p: Path, items: seq<Item>, k: string)
    requires NotInside([k] + p, items)
    ensures NotInside(p, Under(items, k))
  {
    forall it | it in Under(items, k) ensures !(it.path < p) {
      UnderMember(items, k, it);
      assert it.path < p ==> [k] + it.path < [k] + p;
    }
  }

  lemma NotInsideBeside(p: Path, items: seq<Item>, k: string)
    requires NotInside(p, items)
    ensures NotInside(p, Beside(items, k))
  {
    forall it | it in Beside(items, k) ensures !(it.path < p) {
      BesideMember(items, k, it);
    }
  }

  // Below and beside a key the list stays safe.
  lemma {:induction false} SafeParts(items: seq<Item>, k: string)
    requires Safe(items) && forall it :: it in items ==> it.path != [k]
    ensures Safe(Under(items, k)) && Safe(Beside(items, k))
  {
    if items != [] {
      var first, rest := items[0], items[1..];
      assert forall it :: it in rest ==> it in items;
      SafeParts(rest, k);
      if Starts(first.path, k) {
        assert first.path == [k] + first.path[1..] && first in items;
        NotInsideUnder(first.path[1..], rest, k);
        assert Under(items, k)[1..] == Under(rest, k);
      } else {
        NotInsideBeside(first.path, rest, k);
        assert Beside(items, k)[1..] == Beside(rest, k);
      }
    }
  }

  lemma SafeHead(items: seq<Item>)
    requires Safe(items) && items != [] && |items[0].path| > 1
    ensures forall it :: it in items ==> it.path != [items[0].path[0]]
  {
    var k := items[0].path[0];
    forall it | it in items ensures it.path != [k] {
      if it != items[0] {
        assert it in items[1..];
        assert !(it.path < items[0].path);
      }
    }
  }

  function Group(items: seq<Item>): seq<Member>
    requires Safe(items)
    decreases Weight(items)
  {
    if items == [] then []
    else
      var k := items[0].path[0];
      if |items[0].path| == 1 then [Member(k, Leaf(items[0].value))] + Group(items[1..])
      else
        SafeHead(items);
        SafeParts(items, k);
        UnderShrinks(items, k);
        [Member(k, Branch(Group(Under(items, k))))] + Group(Beside(items, k))
  }

  // ---- the two agree

  lemma {:induction false} UnderAppend(items: seq<Item>, it: Item, k: string)
    ensures Under(items + [it], k) == Under(items, k) + Under([it], k)
    ensures Beside(items + [it], k) == Beside(items, k) + Beside([it], k)
  {
    if items == [] {
      assert items + [it] == [it];
    } else {
      assert (items + [it])[1..] == items[1..] + [it];
      UnderAppend(items[1..], it, k);
    }
  }

  lemma {:induction false} SafePrefix(items: seq<Item>, it: Item)
    requires Safe(items + [it])
    ensures Safe(items)
  {
    if items != [] {
      assert (items + [it])[1..] == items[1..] + [it];
      assert forall x :: x in items[1..] ==> x in items[1..] + [it];
      SafePrefix(items[1..], it);
    }
  }

  lemma {:induction false} GroupInsert(items: seq<Item>, it: Item)
    requires Safe(items + [it])
    ensures Safe(items) && it.path != []
    ensures Group(items + [it]) == Insert(Group(items), it.path, it.value)
    decreases |it.path|, Weight(items)
  {
    SafePrefix(items, it);
    LastRooted(items, it);
    if items == [] {
      assert items + [it] == [it];
      GroupOne(it);
    } else if |items[0].path| == 1 {
      assert (items + [it])[1..] == items[1..] + [it];
      GroupInsert(items[1..], it);
      InsertPast(Member(items[0].path[0], Leaf(items[0].value)), Group(items[1..]), it);
    } else {
      GroupInsertBranch(items, it);
    }
  }

  lemma {:induction false} GroupOne(it: Item)
    requires it.path != []
    ensures Safe([it]) && Group([it]) == Insert([], it.path, it.value)
    decreases |it.path|
  {
    assert [it][1..] == [];
    if |it.path| > 1 {
      var k, sub := it.path[0], Item(it.path[1..], it.value);
      assert Under([it], k) == [sub] + Under([it][1..], k) == [sub];
      assert Beside([it], k) == [];
      GroupOne(sub);
    }
  }

  // One step of the rescanning, as a fact.
  lemma GroupBranch(items: seq<Item>, k: string)
    requires Safe(items) && items != [] && |items[0].path| > 1 && k == items[0].path[0]
    ensures Safe(Under(items, k)) && Safe(Beside(items, k))
    ensures Weight(Under(items, k)) < Weight(items) && Weight(Beside(items, k)) < Weight(items)
    ensures Group(items) == [Member(k, Branch(Group(Under(items, k))))] + Group(Beside(items, k))
  {
    SafeHead(items);
    SafeParts(items, k);
    UnderShrinks(items, k);
  }

  lemma PartsOfAppended(items: seq<Item>, it: Item, k: string)
    requires it.path != []
    ensures Starts(it.path, k) ==>
      Under(items + [it], k) == Under(items, k) + [Item(it.path[1..], it.value)] && Beside(items + [it], k) ==
        Beside(items, k)
    ensures !Starts(it.path, k) ==>
      Under(items + [it], k) == Under(items, k) && Beside(items + [it], k) == Beside(items, k) + [it]
  {
    UnderAppend(items, it, k);
    assert [it][1..] == [];
    assert forall s: seq<Item> :: s + [] == s;
  }

  lemma InsertInto(k: string, below: seq<Member>, beside: seq<Member>, it: Item)
    requires Starts(it.path, k) && |it.path| > 1
    ensures Insert([Member(k, Branch(below))] + beside, it.path, it.value)
      == [Member(k, Branch(Insert(below, it.path[1..], it.value)))] + beside
  {
    assert ([Member(k, Branch(below))] + beside)[1..] == beside;
  }

  lemma {:induction false} GroupInsertBranch(items: seq<Item>, it: Item)
    requires Safe(items + [it]) && Safe(items) && items != [] && |items[0].path| > 1 && it.path != []
    ensures Group(items + [it]) == Insert(Group(items), it.path, it.value)
    decreases |it.path|, Weight(items), 0
  {
    var all, k := items + [it], items[0].path[0];
    assert it == all[|items|] && it in all;
    SafeHead(all);
    GroupBranch(all, k);
    GroupBranch(items, k);
    PartsOfAppended(items, it, k);
    var below, beside := Under(items, k), Beside(items, k);
    if Starts(it.path, k) {
      var sub := Item(it.path[1..], it.value);
      assert it.path != [k];
      GroupInsert(below, sub);
      InsertInto(k, Group(below), Group(beside), it);
    } else {
      GroupInsert(beside, it);
      InsertPast(Member(k, Branch(Group(below))), Group(beside), it);
    }
  }

  lemma {:induction false} LastRooted(items: seq<Item>, it: Item)
    requires Safe(items + [it])
    ensures it.path != []
  {
    if items != [] {
      assert (items + [it])[1..] == items[1..] + [it];
      LastRooted(items[1..], it);
    }
  }

  lemma InsertPast(m: Member, ms: seq<Member>, it: Item)
    requires it.path != [] && (m.key != it.path[0] || m.tree.Leaf?)
    ensures Insert([m] + ms, it.path, it.value) == [m] + Insert(ms, it.path, it.value)
  {
    assert ([m] + ms)[1..] == ms;
  }

  // Rescanning in first-occurrence order gives the tree that insertion builds.
  lemma {:induction false} GroupIsBuild(items: seq<Item>)
    requires Safe(items)
    ensures Group(items) == Build(items)
  {
    if items != [] {
      var n := |items| - 1;
      assert items == items[..n] + [items[n]];
      GroupInsert(items[..n], items[n]);
      GroupIsBuild(items[..n]);
    }
  }

  // ---- every item once

  function Prepend(k: string, items: seq<Item>): seq<Item> {
    if items == [] then [] else [Item([k] + items[0].path, items[0].value)] + Prepend(k, items[1..])
  }

  // The leaves of a tree in order, each with its path.
  function Leaves(ms: seq<Member>): seq<Item> {
    if ms == [] then []
    else
      (match ms[0].tree
       case Leaf(j) => [Item([ms[0].key], j)]
       case Branch(sub) => Prepend(ms[0].key, Leaves(sub)))
      + Leaves(ms[1..])
  }

  lemma {:induction false} PartsTogether(items: seq<Item>, k: string)
    ensures multiset(items) == multiset(Prepend(k, Under(items, k))) + multiset(Beside(items, k))
  {
    if items != [] {
      PartsTogether(items[1..], k);
      assert items == [items[0]] + items[1..];
      if Starts(items[0].path, k) { PrependFirst(k, items[0], Under(items[1..], k)); }
    }
  }

  lemma PrependFirst(k: string, it: Item, more: seq<Item>)
    requires Starts(it.path, k)
    ensures Prepend(k, [Item(it.path[1..], it.value)] + more) == [it] + Prepend(k, more)
  {
    assert [k] + it.path[1..] == it.path;
    assert ([Item(it.path[1..], it.value)] + more)[1..] == more;
  }

  lemma {:induction false} PrependCount(k: string, a: seq<Item>, it: Item)
    ensures multiset(Prepend(k, a))[it] == if Starts(it.path, k) then multiset(a)[Item(it.path[1..], it.value)] else 0
  {
    if a != [] {
      PrependCount(k, a[1..], it);
      var head := Item([k] + a[0].path, a[0].value);
      assert a == [a[0]] + a[1..] && Prepend(k, a) == [head] + Prepend(k, a[1..]);
      OneMore(head, Prepend(k, a[1..]), it);
      HeadIs(k, a[0], it);
      if Starts(it.path, k) { OneMore(a[0], a[1..], Item(it.path[1..], it.value)); }
    }
  }

  lemma HeadIs(k: string, x: Item, it: Item)
    ensures Item([k] + x.path, x.value) == it <==> Starts(it.path, k) && x == Item(it.path[1..], it.value)
  {
    if Starts(it.path, k) { assert it.path == [k] + it.path[1..]; }
    assert ([k] + x.path)[1..] == x.path;
  }

  lemma OneMore(x: Item, items: seq<Item>, it: Item)
    ensures multiset([x] + items)[it] == multiset(items)[it] + if x == it then 1 else 0
  {}

  lemma PrependMultiset(k: string, a: seq<Item>, b: seq<Item>)
    requires multiset(a) == multiset(b)
    ensures multiset(Prepend(k, a)) == multiset(Prepend(k, b))
  {
    forall it ensures multiset(Prepend(k, a))[it] == multiset(Prepend(k, b))[it] {
      PrependCount(k, a, it);
      PrependCount(k, b, it);
    }
  }

  // The tree has exactly the items as its leaves: nothing lost, nothing twice.
  lemma {:induction false} GroupKeepsItems(items: seq<Item>)
    requires Safe(items)
    ensures multiset(Leaves(Group(items))) == multiset(items)
    decreases Weight(items)
  {
    if items != [] {
      var k, rest := items[0].path[0], items[1..];
      assert items == [items[0]] + rest;
      if |items[0].path| == 1 {
        GroupKeepsItems(rest);
        assert items[0].path == [k];
        assert Group(items)[1..] == Group(rest);
      } else {
        GroupBranch(items, k);
        GroupKeepsItems(Under(items, k));
        GroupKeepsItems(Beside(items, k));
        PrependMultiset(k, Leaves(Group(Under(items, k))), Under(items, k));
        PartsTogether(items, k);
        assert Group(items)[1..] == Group(Beside(items, k));
      }
    }
  }

  // ---- prefix-free lists: no object repeats a key, and every item is found at its path

  predicate Clash(p: Path, q: Path) {
    p <= q || q <= p
  }

  predicate PrefixFree(items: seq<Item>) {
    items == [] ||
    (items[0].path != [] && (forall it :: it in items[1..] ==> !Clash(items[0].path, it.path)) &&
      PrefixFree(items[1..]))
  }

  lemma {:induction false} PrefixFreeIsSafe(items: seq<Item>)
    requires PrefixFree(items)
    ensures Safe(items)
  {
    if items != [] { PrefixFreeIsSafe(items[1..]); }
  }

  lemma {:induction false} PrefixFreeParts(items: seq<Item>, k: string)
    requires PrefixFree(items) && forall it :: it in items ==> it.path != [k]
    ensures PrefixFree(Under(items, k)) && PrefixFree(Beside(items, k))
  {
    if items != [] {
      var first, rest := items[0], items[1..];
      assert forall it :: it in rest ==> it in items;
      PrefixFreeParts(rest, k);
      if Starts(first.path, k) {
        assert first.path == [k] + first.path[1..] && first in items;
        forall it | it in Under(rest, k) ensures !Clash(first.path[1..], it.path) {
          UnderMember(rest, k, it);
          assert !Clash(first.path, [k] + it.path);
        }
        assert Under(items, k)[1..] == Under(rest, k);
      } else {
        forall it | it in Beside(rest, k) ensures !Clash(first.path, it.path) {
          BesideMember(rest, k, it);
        }
        assert Beside(items, k)[1..] == Beside(rest, k);
      }
    }
  }

  predicate HasKey(ms: seq<Member>, k: string) {
    exists m :: m in ms && m.key == k
  }

  predicate UniqueKeys(ms: seq<Member>) {
    ms == [] ||
    (!HasKey(ms[1..], ms[0].key) && UniqueKeys(ms[1..]) && (ms[0].tree.Branch? ==> UniqueKeys(ms[0].tree.members)))
  }

  lemma {:induction false} GroupKeys(items: seq<Item>, m: Member)
    requires Safe(items) && m in Group(items)
    ensures exists it :: it in items && Starts(it.path, m.key)
    decreases Weight(items)
  {
    var k, rest := items[0].path[0], items[1..];
    assert items[0] in items && Starts(items[0].path, k);
    if |items[0].path| == 1 {
      if m.key != k {
        GroupKeys(rest, m);
        var it :| it in rest && Starts(it.path, m.key);
        assert it in items;
      }
    } else {
      GroupBranch(items, k);
      if m.key != k {
        GroupKeys(Beside(items, k), m);
        var it :| it in Beside(items, k) && Starts(it.path, m.key);
        BesideMember(items, k, it);
      }
    }
  }

  lemma {:induction false} GroupUniqueKeys(items: seq<Item>)
    requires PrefixFree(items)
    ensures Safe(items) && UniqueKeys(Group(items))
    decreases Weight(items)
  {
    PrefixFreeIsSafe(items);
    if items != [] {
      var k, rest := items[0].path[0], items[1..];
      if |items[0].path| == 1 {
        assert items[0].path == [k];
        PrefixFreeIsSafe(rest);
        GroupUniqueKeys(rest);
        if HasKey(Group(rest), k) {
          var m :| m in Group(rest) && m.key == k;
          GroupKeys(rest, m);
          var it :| it in rest && Starts(it.path, k);
          assert Clash(items[0].path, it.path);
        }
        assert Group(items)[1..] == Group(rest);
      } else {
        GroupBranch(items, k);
        SafeHead(items);
        PrefixFreeParts(items, k);
        GroupUniqueKeys(Under(items, k));
        GroupUniqueKeys(Beside(items, k));
        if HasKey(Group(Beside(items, k)), k) {
          var m :| m in Group(Beside(items, k)) && m.key == k;
          GroupKeys(Beside(items, k), m);
          var it :| it in Beside(items, k) && Starts(it.path, k);
          BesideMember(items, k, it);
        }
        assert Group(items)[1..] == Group(Beside(items, k));
      }
    }
  }

  // ---- and only prefix-free lists have that

  lemma {:induction false} GroupHasKey(items: seq<Item>, it: Item)
    requires Safe(items) && it in items
    ensures it.path != [] && HasKey(Group(items), it.path[0])
    decreases Weight(items)
  {
    var k, rest := items[0].path[0], items[1..];
    var m := Group(items)[0];
    assert m in Group(items);
    if it.path != [] && it.path[0] == k {
      assert m.key == k;
    } else if |items[0].path| == 1 {
      GroupHasKey(rest, it);
      var n :| n in Group(rest) && n.key == it.path[0];
      assert n in Group(items);
    } else {
      GroupBranch(items, k);
      KeepBeside(items, k, it);
      GroupHasKey(Beside(items, k), it);
      var n :| n in Group(Beside(items, k)) && n.key == it.path[0];
      assert n in Group(items);
    }
  }

  lemma {:induction false} KeepUnder(items: seq<Item>, k: string, it: Item)
    requires it in items && Starts(it.path, k)
    ensures Item(it.path[1..], it.value) in Under(items, k)
  {
    if it != items[0] { KeepUnder(items[1..], k, it); }
  }

  lemma {:induction false} KeepBeside(items: seq<Item>, k: string, it: Item)
    requires it in items && !Starts(it.path, k)
    ensures it in Beside(items, k)
  {
    if it != items[0] { KeepBeside(items[1..], k, it); }
  }

  lemma ClashBelow(k: string, p: Path, q: Path)
    ensures Clash([k] + p, [k] + q) ==> Clash(p, q)
  {
    assert ([k] + p)[1..] == p && ([k] + q)[1..] == q;
  }

  // The first item clashes with none of the rest if neither its group nor the others clash.
  lemma NoClashAcross(first: Item, rest: seq<Item>, k: string, it: Item)
    requires first.path != [] && it in rest && it.path != []
    requires Starts(first.path, k) ==>
      forall x :: x in Under(rest, k) ==> !Clash(first.path[1..], x.path)
    requires !Starts(first.path, k) ==>
      forall x :: x in Beside(rest, k) ==> !Clash(first.path, x.path)
    ensures !Clash(first.path, it.path)
  {
    if first.path[0] == it.path[0] {
      if Starts(first.path, k) {
        KeepUnder(rest, k, it);
        ClashBelow(k, first.path[1..], it.path[1..]);
        assert first.path == [k] + first.path[1..] && it.path == [k] + it.path[1..];
      } else {
        KeepBeside(rest, k, it);
      }
    }
  }

  lemma {:induction false} PrefixFreeJoin(items: seq<Item>, k: string)
    requires PrefixFree(Under(items, k)) && PrefixFree(Beside(items, k))
    requires forall it :: it in items ==> it.path != []
    ensures PrefixFree(items)
  {
    if items != [] {
      var first, rest := items[0], items[1..];
      if Starts(first.path, k) {
        assert Under(items, k)[1..] == Under(rest, k);
      } else {
        assert Beside(items, k)[1..] == Beside(rest, k);
      }
      assert forall it :: it in rest ==> it in items;
      PrefixFreeJoin(rest, k);
      forall it | it in rest ensures !Clash(first.path, it.path) {
        NoClashAcross(first, rest, k, it);
      }
    }
  }

  lemma {:induction false} SafePaths(items: seq<Item>)
    requires Safe(items)
    ensures forall it :: it in items ==> it.path != []
  {
    if items != [] { SafePaths(items[1..]); }
  }

  lemma {:induction false} UniqueKeysPrefixFree(items: seq<Item>)
    requires Safe(items) && UniqueKeys(Group(items))
    ensures PrefixFree(items)
    decreases Weight(items)
  {
    if items != [] {
      var k, rest := items[0].path[0], items[1..];
      if |items[0].path| == 1 {
        assert items[0].path == [k];
        assert Group(items)[1..] == Group(rest);
        UniqueKeysPrefixFree(rest);
        forall it | it in rest ensures !Clash(items[0].path, it.path) {
          GroupHasKey(rest, it);
        }
      } else {
        GroupBranch(items, k);
        assert Group(items)[1..] == Group(Beside(items, k));
        assert Group(items)[0].tree == Branch(Group(Under(items, k)));
        UniqueKeysPrefixFree(Under(items, k));
        UniqueKeysPrefixFree(Beside(items, k));
        SafePaths(items);
        PrefixFreeJoin(items, k);
      }
    }
  }

  // No object repeats a key exactly when no path is a prefix of another.
  lemma KeysUniqueIffPrefixFree(items: seq<Item>)
    requires Safe(items)
    ensures UniqueKeys(Group(items)) <==> PrefixFree(items)
  {
    if UniqueKeys(Group(items)) { UniqueKeysPrefixFree(items); }
    if PrefixFree(items) { GroupUniqueKeys(items); }
  }

  // ---- keys come in the order in which the nodes first use them

  function FirstAt(items: seq<Item>, k: string): nat {
    if items == [] || Starts(items[0].path, k) then 0 else 1 + FirstAt(items[1..], k)
  }

  lemma {:induction false} BesideOrder(items: seq<Item>, k: string, a: string, b: string)
    requires a != k && b != k && FirstAt(Beside(items, k), a) < FirstAt(Beside(items, k), b)
    ensures FirstAt(items, a) < FirstAt(items, b)
  {
    if items != [] && !Starts(items[0].path, a) {
      var beside := Beside(items, k);
      if !Starts(items[0].path, k) { assert beside[1..] == Beside(items[1..], k); }
      BesideOrder(items[1..], k, a, b);
    }
  }

  lemma {:induction false} KeysInOrder(items: seq<Item>, i: nat, j: nat)
    requires PrefixFree(items)
    ensures Safe(items)
    ensures i < j < |Group(items)| ==> FirstAt(items, Group(items)[i].key) < FirstAt(items, Group(items)[j].key)
    decreases Weight(items), 1
  {
    hide HasKey, Clash, UniqueKeys, Under, FirstAt;
    PrefixFreeIsSafe(items);
    GroupUniqueKeys(items);
    if items != [] && i < j < |Group(items)| {
      OtherKey(Group(items), j);
      FirstAtHere(items, Group(items)[j].key);
      if i > 0 {
        OtherKey(Group(items), i);
        if |items[0].path| == 1 {
          KeysInOrder(items[1..], i - 1, j - 1);
          FirstAtHere(items, Group(items)[i].key);
        } else {
          OrderBeside(items, i, j);
        }
      }
    }
  }

  lemma FirstAtHere(items: seq<Item>, k: string)
    requires items != [] && items[0].path != []
    ensures FirstAt(items, k) == if items[0].path[0] == k then 0 else 1 + FirstAt(items[1..], k)
    ensures FirstAt(items, items[0].path[0]) == 0
  {}

  lemma {:induction false} OrderBeside(items: seq<Item>, i: nat, j: nat)
    requires PrefixFree(items) && Safe(items) && items != [] && |items[0].path| > 1
    requires 0 < i < j < |Group(items)|
    requires Group(items)[i].key != items[0].path[0] && Group(items)[j].key != items[0].path[0]
    ensures FirstAt(items, Group(items)[i].key) < FirstAt(items, Group(items)[j].key)
    decreases Weight(items), 0
  {
    hide HasKey, Clash, UniqueKeys, FirstAt, Beside, Under;
    var k, members := items[0].path[0], Group(items);
    GroupBranch(items, k);
    assert members[1..] == Group(Beside(items, k));
    SafeHead(items);
    PrefixFreeParts(items, k);
    KeysInOrder(Beside(items, k), i - 1, j - 1);
    BesideOrder(items, k, members[i].key, members[j].key);
  }

  lemma OtherKey(ms: seq<Member>, j: nat)
    requires UniqueKeys(ms) && 0 < j < |ms|
    ensures ms[j].key != ms[0].key
  {
    assert ms[1..][j - 1] == ms[j];
  }
}
