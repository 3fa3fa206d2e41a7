/** The order on versions that `pkg_version_cmp` decides, and its laws
    (libpkg/pkg_version.c). */
module VersionOrder {
  import opened Characters
  import opened VersionSpec

  function Sign(m: int, n: int): int
  {
    if m < n then -1 else if m > n then 1 else 0
  }

  /** Number, then letter, then patch level. */
  function CompareComponents(c: Component, d: Component): int
  {
    if c.n != d.n then Sign(c.n, d.n)
    else if c.a != d.a then Sign(c.a, d.a)
    else Sign(c.pl, d.pl)
  }

  /** The component at position `j` of a block; what is missing counts as zero. */
  function Padded(x: seq<Component>, j: nat): Component
  {
    if j < |x| then x[j] else MISSING
  }

  function PaddedBlock(bs: seq<seq<Component>>, i: nat): seq<Component>
  {
    if i < |bs| then bs[i] else []
  }

  function Tail<T>(s: seq<T>): seq<T>
  {
    if s == [] then [] else s[1..]
  }

  function CompareBlock(x: seq<Component>, y: seq<Component>): int
    decreases |x| + |y|
  {
    if x == [] && y == [] then 0
    else
      var r := CompareComponents(Padded(x, 0), Padded(y, 0));
      if r != 0 then r else CompareBlock(Tail(x), Tail(y))
  }

  function CompareBlocks(x: seq<seq<Component>>, y: seq<seq<Component>>): int
    decreases |x| + |y|
  {
    if x == [] && y == [] then 0
    else
      var r := CompareBlock(PaddedBlock(x, 0), PaddedBlock(y, 0));
      if r != 0 then r else CompareBlocks(Tail(x), Tail(y))
  }

  /** What a version string says: epoch, blocks of components, revision. */
  datatype Version = Version(epoch: nat, blocks: seq<seq<Component>>, revision: nat)

  /** Epoch, then components, then revision. */
  function Compare(v: Version, w: Version): int
  {
    if v.epoch != w.epoch then Sign(v.epoch, w.epoch)
    else
      var r := CompareBlocks(v.blocks, w.blocks);
      if r != 0 then r else Sign(v.revision, w.revision)
  }

  // ----- the order without an algorithm -----

  /** The component at block `i`, position `j` of the zero-padded version. */
  function At2(bs: seq<seq<Component>>, i: nat, j: nat): Component
  {
    Padded(PaddedBlock(bs, i), j)
  }

  ghost predicate ComponentLess(c: Component, d: Component)
  {
    c.n < d.n || (c.n == d.n && (c.a < d.a || (c.a == d.a && c.pl < d.pl)))
  }

  ghost predicate Earlier(i: nat, j: nat, k: nat, l: nat)
  {
    i < k || (i == k && j < l)
  }

  ghost predicate SameBefore(x: seq<seq<Component>>, y: seq<seq<Component>>, k: nat, l: nat)
  {
    forall i: nat, j: nat :: Earlier(i, j, k, l) ==> At2(x, i, j) == At2(y, i, j)
  }

  /** The versions first differ at (k, l), where `x` has the smaller component. */
  ghost predicate LessAt(x: seq<seq<Component>>, y: seq<seq<Component>>, k: nat, l: nat)
  {
    SameBefore(x, y, k, l) && ComponentLess(At2(x, k, l), At2(y, k, l))
  }

  ghost predicate Less(x: seq<seq<Component>>, y: seq<seq<Component>>)
  {
    exists k: nat, l: nat :: LessAt(x, y, k, l)
  }

  ghost predicate SameEverywhere(x: seq<seq<Component>>, y: seq<seq<Component>>)
  {
    forall i: nat, j: nat :: At2(x, i, j) == At2(y, i, j)
  }

  // ----- the algorithm decides it -----

  lemma PaddedTail(x: seq<Component>, j: nat)
    ensures Padded(x, j + 1) == Padded(Tail(x), j)
  {
  }

  /** Comparing two blocks: 0 if they agree everywhere, otherwise the sign at the
      first position where they differ. */
  lemma {:induction false} CompareBlockFinds(x: seq<Component>, y: seq<Component>) returns (l: nat)
    ensures CompareBlock(x, y) == 0 ==> forall j: nat :: Padded(x, j) == Padded(y, j)
    ensures CompareBlock(x, y) != 0 ==>
      && (forall j: nat :: j < l ==> Padded(x, j) == Padded(y, j))
      && CompareComponents(Padded(x, l), Padded(y, l)) == CompareBlock(x, y)
    decreases |x| + |y|
  {
    l := 0;
    if !(x == [] && y == []) && CompareComponents(Padded(x, 0), Padded(y, 0)) == 0 {
      var m := CompareBlockFinds(Tail(x), Tail(y));
      l := m + 1;
      forall j: nat | CompareBlock(x, y) == 0 || j < l
        ensures Padded(x, j) == Padded(y, j)
      {
        if j > 0 {
          PaddedTail(x, j - 1);
          PaddedTail(y, j - 1);
        }
      }
      PaddedTail(x, m);
      PaddedTail(y, m);
    }
  }

  lemma At2Tail(x: seq<seq<Component>>, i: nat, j: nat)
    ensures At2(x, i + 1, j) == At2(Tail(x), i, j)
  {
  }

  lemma NothingDiffers()
    ensures SameEverywhere([], [])
  {
  }

  lemma SameBeforeInFirst(x: seq<seq<Component>>, y: seq<seq<Component>>, l: nat)
    requires forall j: nat :: j < l ==> Padded(PaddedBlock(x, 0), j) == Padded(PaddedBlock(y, 0), j)
    ensures SameBefore(x, y, 0, l)
  {
  }

  lemma SameFromTails(x: seq<seq<Component>>, y: seq<seq<Component>>)
    requires forall j: nat :: Padded(PaddedBlock(x, 0), j) == Padded(PaddedBlock(y, 0), j)
    requires SameEverywhere(Tail(x), Tail(y))
    ensures SameEverywhere(x, y)
  {
    hide Padded, PaddedBlock, Tail;
    forall i: nat, j: nat
      ensures At2(x, i, j) == At2(y, i, j)
    {
      if i > 0 {
        assert At2(Tail(x), i - 1, j) == At2(Tail(y), i - 1, j);
        At2Tail(x, i - 1, j);
        At2Tail(y, i - 1, j);
      }
    }
  }

  lemma SameBeforeFromTails(x: seq<seq<Component>>, y: seq<seq<Component>>, k: nat, l: nat)
    requires forall j: nat :: Padded(PaddedBlock(x, 0), j) == Padded(PaddedBlock(y, 0), j)
    requires SameBefore(Tail(x), Tail(y), k, l)
    ensures SameBefore(x, y, k + 1, l)
  {
    hide Padded, PaddedBlock, Tail;
    forall i: nat, j: nat | Earlier(i, j, k + 1, l)
      ensures At2(x, i, j) == At2(y, i, j)
    {
      if i > 0 {
        assert Earlier(i - 1, j, k, l);
        At2Tail(x, i - 1, j);
        At2Tail(y, i - 1, j);
      }
    }
  }

  lemma {:induction false} CompareBlocksFinds(x: seq<seq<Component>>, y: seq<seq<Component>>) returns (k: nat, l: nat)
    ensures CompareBlocks(x, y) == 0 ==> SameEverywhere(x, y)
    ensures CompareBlocks(x, y) != 0 ==>
      SameBefore(x, y, k, l) && CompareComponents(At2(x, k, l), At2(y, k, l)) == CompareBlocks(x, y)
    decreases |x| + |y|
  {
    hide PaddedBlock, Padded, CompareBlock, CompareComponents, SameBefore, SameEverywhere;
    k, l := 0, 0;
    if x == [] && y == [] {
      NothingDiffers();
    } else {
      var m := CompareBlockFinds(PaddedBlock(x, 0), PaddedBlock(y, 0));
      if CompareBlock(PaddedBlock(x, 0), PaddedBlock(y, 0)) != 0 {
        l := m;
        SameBeforeInFirst(x, y, l);
      } else {
        var k', l' := CompareBlocksFinds(Tail(x), Tail(y));
        k, l := k' + 1, l';
        if CompareBlocks(x, y) == 0 {
          SameFromTails(x, y);
        } else {
          SameBeforeFromTails(x, y, k', l');
        }
        At2Tail(x, k', l);
        At2Tail(y, k', l);
      }
    }
  }

  lemma ComponentsDecide(c: Component, d: Component)
    ensures CompareComponents(c, d) == 0 <==> c == d
    ensures CompareComponents(c, d) < 0 <==> ComponentLess(c, d)
    ensures CompareComponents(c, d) > 0 <==> ComponentLess(d, c)
  {
  }

  /** The three outcomes are the three ways two padded versions can relate: the
      same everywhere, or smaller on one side at the first difference. */
  lemma CompareBlocksDecides(x: seq<seq<Component>>, y: seq<seq<Component>>)
    ensures CompareBlocks(x, y) == 0 <==> SameEverywhere(x, y)
    ensures CompareBlocks(x, y) == -1 <==> Less(x, y)
    ensures CompareBlocks(x, y) == 1 <==> Less(y, x)
  {
    var k, l := CompareBlocksFinds(x, y);
    var r := CompareBlocks(x, y);
    if r == 0 {
      forall i: nat, j: nat
        ensures !LessAt(x, y, i, j) && !LessAt(y, x, i, j)
      {
        ComponentsDecide(At2(x, i, j), At2(y, i, j));
      }
    } else {
      ComponentsDecide(At2(x, k, l), At2(y, k, l));
      if r < 0 {
        assert LessAt(x, y, k, l);
        LessIsOneWay(x, y, k, l);
      } else {
        assert SameBefore(y, x, k, l);
        assert LessAt(y, x, k, l);
        LessIsOneWay(y, x, k, l);
      }
    }
    SignOnly(x, y);
  }

  lemma {:induction false} SignOnly(x: seq<seq<Component>>, y: seq<seq<Component>>)
    ensures -1 <= CompareBlocks(x, y) <= 1
    decreases |x| + |y|
  {
    if x != [] || y != [] {
      BlockSignOnly(PaddedBlock(x, 0), PaddedBlock(y, 0));
      SignOnly(Tail(x), Tail(y));
    }
  }

  lemma {:induction false} BlockSignOnly(x: seq<Component>, y: seq<Component>)
    ensures -1 <= CompareBlock(x, y) <= 1
    decreases |x| + |y|
  {
    if x != [] || y != [] {
      BlockSignOnly(Tail(x), Tail(y));
    }
  }

  /** A first difference one way rules out one the other way. */
  lemma LessIsOneWay(x: seq<seq<Component>>, y: seq<seq<Component>>, k: nat, l: nat)
    requires LessAt(x, y, k, l)
    ensures !SameEverywhere(x, y) && !Less(y, x)
  {
    forall i: nat, j: nat
      ensures !LessAt(y, x, i, j)
    {
      assert Earlier(i, j, k, l) ==> At2(x, i, j) == At2(y, i, j);
      assert Earlier(k, l, i, j) && SameBefore(y, x, i, j) ==> At2(y, k, l) == At2(x, k, l);
    }
  }

  lemma LessTransitive(x: seq<seq<Component>>, y: seq<seq<Component>>, z: seq<seq<Component>>)
    requires Less(x, y) && (Less(y, z) || SameEverywhere(y, z))
    ensures Less(x, z)
  {
    var k: nat, l: nat :| LessAt(x, y, k, l);
    if SameEverywhere(y, z) {
      assert LessAt(x, z, k, l);
    } else {
      var m: nat, n: nat :| LessAt(y, z, m, n);
      if Earlier(m, n, k, l) {
        assert LessAt(x, z, m, n);
      } else {
        assert Earlier(k, l, m, n) ==> At2(y, k, l) == At2(z, k, l);
        assert LessAt(x, z, k, l);
      }
    }
  }

  lemma SameThenLess(x: seq<seq<Component>>, y: seq<seq<Component>>, z: seq<seq<Component>>)
    requires SameEverywhere(x, y) && Less(y, z)
    ensures Less(x, z)
  {
    var m: nat, n: nat :| LessAt(y, z, m, n);
    assert LessAt(x, z, m, n);
  }

  // ----- the laws of the order -----

  lemma CompareBlocksTransitive(x: seq<seq<Component>>, y: seq<seq<Component>>, z: seq<seq<Component>>)
    ensures CompareBlocks(x, y) <= 0 && CompareBlocks(y, z) <= 0 ==> CompareBlocks(x, z) <= 0
    ensures CompareBlocks(x, y) <= 0 && CompareBlocks(y, z) <= 0 && CompareBlocks(x, z) == 0
            ==> CompareBlocks(x, y) == 0 && CompareBlocks(y, z) == 0
    ensures CompareBlocks(x, y) == 0 && CompareBlocks(y, z) == 0 ==> CompareBlocks(x, z) == 0
  {
    hide CompareBlocks, Less, SameEverywhere;
    SignOnly(x, y);
    SignOnly(y, z);
    SignOnly(x, z);
    CompareBlocksDecides(x, y);
    CompareBlocksDecides(y, z);
    CompareBlocksDecides(x, z);
    if Less(x, y) && (Less(y, z) || SameEverywhere(y, z)) {
      LessTransitive(x, y, z);
    } else if SameEverywhere(x, y) && Less(y, z) {
      SameThenLess(x, y, z);
    } else if SameEverywhere(x, y) && SameEverywhere(y, z) {
      SameTransitive(x, y, z);
    }
  }

  lemma SameTransitive(x: seq<seq<Component>>, y: seq<seq<Component>>, z: seq<seq<Component>>)
    requires SameEverywhere(x, y) && SameEverywhere(y, z)
    ensures SameEverywhere(x, z)
  {
  }

  lemma CompareBlocksSwap(x: seq<seq<Component>>, y: seq<seq<Component>>)
    ensures CompareBlocks(x, y) == -CompareBlocks(y, x)
  {
    hide CompareBlocks, Less;
    CompareBlocksDecides(x, y);
    CompareBlocksDecides(y, x);
    SignOnly(x, y);
    SignOnly(y, x);
  }

  /** `Compare` is a total preorder: its result is a sign, it is 0 on equal
      versions, swapping the versions negates it, and it is transitive. */
  lemma CompareIsPreorder(u: Version, v: Version, w: Version)
    ensures -1 <= Compare(u, v) <= 1
    ensures Compare(u, u) == 0
    ensures Compare(u, v) == -Compare(v, u)
    ensures Compare(u, v) <= 0 && Compare(v, w) <= 0 ==> Compare(u, w) <= 0
    ensures Compare(u, v) < 0 && Compare(v, w) <= 0 ==> Compare(u, w) < 0
    ensures Compare(u, v) <= 0 && Compare(v, w) < 0 ==> Compare(u, w) < 0
  {
    hide CompareBlocks;
    SignOnly(u.blocks, v.blocks);
    CompareBlocksSwap(u.blocks, u.blocks);
    CompareBlocksSwap(u.blocks, v.blocks);
    CompareBlocksTransitive(u.blocks, v.blocks, w.blocks);
  }
}
