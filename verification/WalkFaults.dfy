/** What a walk over a changing list does not promise, and exactly when it goes wrong: deletions can make
    it step over a bucket, insertions can make it return one twice. */
module WalkFaults {
  import opened Wrappers
  import opened Text
  import opened Buckets
  import Integers
  import Pagination
  import Sorting

  // ---- the names a walk has passed ----

  /** The first `offset` names. */
  function Passed(names: set<Str>, offset: nat): set<Str> {
    set n | n in names && Rank(names, n) < offset
  }

  lemma PassedIsPrefix(response: seq<Bucket>, offset: nat)
    requires DistinctNames(response) && offset <= |response|
    ensures offset <= |Sorting.Sort(response, NameOrder)|
    ensures Passed(Names(response), offset) == Prefix(Sorting.Sort(response, NameOrder), offset)
  {
    var s := Sorting.Sort(response, NameOrder);
    SortedNames(response);
    forall n: Str ensures n in Passed(Names(response), offset) <==> n in Prefix(s, offset) {
      if n in Names(response) {
        var j := PositionOf(response, n);
        if n in Prefix(s, offset) {
          var i :| 0 <= i < offset && s[i].name == n;
          SortedPosition(response, i);
        }
      }
    }
  }

  lemma PassedSize(response: seq<Bucket>, offset: nat)
    requires DistinctNames(response) && offset <= |response|
    ensures |Passed(Names(response), offset)| == offset
  {
    PassedIsPrefix(response, offset);
    SortedNames(response);
    PrefixSize(Sorting.Sort(response, NameOrder), offset);
  }

  lemma BeforeTransitive(a: Str, b: Str, c: Str)
    requires Before(a, b) && Before(b, c)
    ensures Before(a, c)
  {
    LeTransitive(a, b, c);
    if a == c { LeAntisymmetric(a, b); }
  }

  /** Of two names the earlier has the smaller rank. */
  lemma RankStrict(names: set<Str>, a: Str, b: Str)
    requires a in names && Before(a, b)
    ensures Rank(names, a) < Rank(names, b)
  {
    var below, upto := (set n | n in names && Before(n, a)), (set n | n in names && Before(n, b));
    forall n | n in below ensures n in upto { BeforeTransitive(n, a, b); }
    SubsetSize(below + {a}, upto);
  }

  /** A name ranked at or behind the offset has every passed name before it. */
  lemma PassedBefore(names: set<Str>, offset: nat, p: Str, n: Str)
    requires p in Passed(names, offset) && n in names && Rank(names, n) >= offset
    ensures Before(p, n)
  {
    LeTotal(p, n);
    if !Before(p, n) { RankStrict(names, n, p); }
  }

  /** A name with a whole set of others before it has at least that rank. */
  lemma RankAtLeast(names: set<Str>, some: set<Str>, n: Str)
    requires some <= names && forall p :: p in some ==> Before(p, n)
    ensures |some| <= Rank(names, n)
  {
    SubsetSize(some, (set m | m in names && Before(m, n)));
  }

  /** A walk only goes on while the list is longer than the offset. */
  lemma LongerThanOffset(walk: seq<Fetch>, pages: seq<Page>, region: string, codec: Codec, t: nat)
    requires Faithful(codec) && IsWalk(walk, pages, region, codec) && t + 1 < |walk|
    ensures OffsetAt(walk, t + 1) < |walk[t].response|
  {
    FetchMeaning(walk, pages, region, codec, t);
    ResourcesLength(walk[t].response, region);
    assert IsFetch(walk, pages, region, codec, t + 1);
  }

  // ---- deletions: exactly when a walk misses a name ----

  /** Between fetches t and t + 1 the name moved from behind the offset to before it. */
  predicate SteppedOver(walk: seq<Fetch>, t: nat, name: Str)
    requires t + 1 < |walk|
  {
    Rank(Names(walk[t + 1].response), name) < OffsetAt(walk, t + 1) <= Rank(Names(walk[t].response), name)
  }

  /** Under deletions, a finished walk has missed a name that is there to the end exactly if the name was
      stepped over between two fetches. */
  lemma MissedIffSteppedOver(walk: seq<Fetch>, pages: seq<Page>, region: string, codec: Codec, name: Str)
    requires Faithful(codec) && IsWalk(walk, pages, region, codec) && walk != [] && Deleting(walk)
    requires pages[|pages| - 1].next == None && name in Names(walk[|walk| - 1].response)
    ensures (forall t :: 0 <= t < |walk| ==> !Returned(pages[t], name))
       <==> (exists t :: 0 <= t < |walk| - 1 && SteppedOver(walk, t, name))
  {
    if forall t :: 0 <= t < |walk| ==> !Returned(pages[t], name) {
      if forall t :: 0 <= t < |walk| - 1 ==> !SteppedOver(walk, t, name) {
        StaysBehind(walk, pages, region, codec, |walk| - 1, name);
        ReturnedByRank(walk, pages, region, codec, |walk| - 1, name);
        BehindTheEnd(walk, pages, region, codec, name);
        assert false;
      }
    }
    if t :| 0 <= t < |walk| - 1 && SteppedOver(walk, t, name) {
      forall u | 0 <= u < |walk| ensures !Returned(pages[u], name) {
        NotReturnedAround(walk, pages, region, codec, t, u, name);
      }
    }
  }

  /** A name neither returned nor stepped over so far is still at or behind the offset. */
  lemma {:induction false} StaysBehind(walk: seq<Fetch>, pages: seq<Page>, region: string, codec: Codec, t: nat,
    name: Str)
    requires Faithful(codec) && IsWalk(walk, pages, region, codec) && Deleting(walk) && t < |walk|
    requires name in Names(walk[|walk| - 1].response)
    requires forall u :: 0 <= u < t ==> !Returned(pages[u], name)
    requires forall u :: 0 <= u < t ==> !SteppedOver(walk, u, name)
    ensures name in Names(walk[t].response) && OffsetAt(walk, t) <= Rank(Names(walk[t].response), name)
  {
    NamesShrink(walk, t, |walk| - 1);
    if t > 0 {
      StaysBehind(walk, pages, region, codec, t - 1, name);
      ReturnedByRank(walk, pages, region, codec, t - 1, name);
      assert !SteppedOver(walk, t - 1, name);
    }
  }

  /** A name stepped over is returned neither before nor after. */
  lemma NotReturnedAround(walk: seq<Fetch>, pages: seq<Page>, region: string, codec: Codec, t: nat, u: nat, name: Str)
    requires Faithful(codec) && IsWalk(walk, pages, region, codec) && Deleting(walk)
    requires t + 1 < |walk| && SteppedOver(walk, t, name) && u < |walk|
    ensures !Returned(pages[u], name)
  {
    ReturnedByRank(walk, pages, region, codec, u, name);
    if u <= t {
      NamesShrink(walk, u, t);
      RankMonotone(Names(walk[t].response), Names(walk[u].response), name);
      OffsetMonotone(walk, u + 1, t + 1);
    } else {
      NamesShrink(walk, t + 1, u);
      RankMonotone(Names(walk[u].response), Names(walk[t + 1].response), name);
      OffsetMonotone(walk, t + 1, u);
    }
  }

  /** The deletions between two fetches step over some name exactly if one of the names already passed
      was deleted and one of those still to come was not. */
  lemma StepsOverIffPassedDeleted(walk: seq<Fetch>, pages: seq<Page>, region: string, codec: Codec, t: nat)
    requires Faithful(codec) && IsWalk(walk, pages, region, codec) && Deleting(walk) && t + 1 < |walk|
    ensures var was, now := Names(walk[t].response), Names(walk[t + 1].response);
      (exists n :: n in now && SteppedOver(walk, t, n))
      <==> !(Passed(was, OffsetAt(walk, t + 1)) <= now) && !(now <= Passed(was, OffsetAt(walk, t + 1)))
  {
    var was, now, offset := Names(walk[t].response), Names(walk[t + 1].response), OffsetAt(walk, t + 1);
    LongerThanOffset(walk, pages, region, codec, t);
    PassedSize(walk[t].response, offset);
    assert now <= was;
    if n :| n in now && SteppedOver(walk, t, n) {
      assert n !in Passed(was, offset);
      if Passed(was, offset) <= now {
        forall p | p in Passed(was, offset) ensures Before(p, n) { PassedBefore(was, offset, p, n); }
        RankAtLeast(now, Passed(was, offset), n);
      }
    }
    if !(Passed(was, offset) <= now) && !(now <= Passed(was, offset)) {
      var n := FirstToCome(was, now, offset);
      assert SteppedOver(walk, t, n);
    }
  }

  /** The first name still there behind the offset is stepped over once a passed name is gone. */
  lemma FirstToCome(was: set<Str>, now: set<Str>, offset: nat) returns (n: Str)
    requires now <= was && |Passed(was, offset)| == offset
    requires !(Passed(was, offset) <= now) && !(now <= Passed(was, offset))
    ensures n in now && Rank(now, n) < offset <= Rank(was, n)
  {
    var passed := Passed(was, offset);
    var left :| left in now && left !in passed;
    assert left in now - passed;
    n := Least(now - passed);
    var gone :| gone in passed && gone !in now;
    forall m | m in now && Before(m, n) ensures m in passed - {gone} {
      if m !in passed { assert Before(n, m) || n == m; BeforeAsymmetric(m, n); }
    }
    SubsetSize((set m | m in now && Before(m, n)), passed - {gone});
  }

  lemma BeforeAsymmetric(a: Str, b: Str)
    ensures !(Before(a, b) && Before(b, a))
  {
    if Before(a, b) && Before(b, a) { LeAntisymmetric(a, b); }
  }

  lemma {:induction false} Least(names: set<Str>) returns (n: Str)
    requires names != {}
    ensures n in names && forall m :: m in names ==> m == n || Before(n, m)
    decreases |names|
  {
    var x :| x in names;
    if names == {x} {
      n := x;
    } else {
      var y := Least(names - {x});
      LeTotal(x, y);
      n := if Before(x, y) then x else y;
      forall m | m in names ensures m == n || Before(n, m) {
        if n == x && m != x && m != y { BeforeTransitive(x, y, m); }
      }
    }
  }

  // ---- insertions: exactly when a walk returns a name again ----

  /** Under insertions, a finished walk returns again a name it has returned exactly if some later fetch
      finds that name at or behind its offset. */
  lemma RepeatedIffPushedBehind(walk: seq<Fetch>, pages: seq<Page>, region: string, codec: Codec, t: nat, name: Str)
    requires Faithful(codec) && IsWalk(walk, pages, region, codec) && Inserting(walk)
    requires t < |walk| && pages[|pages| - 1].next == None && Returned(pages[t], name)
    ensures (exists u :: t < u < |walk| && Returned(pages[u], name))
       <==> (exists u :: t < u < |walk| && OffsetAt(walk, u) <= Rank(Names(walk[u].response), name))
  {
    if u :| t < u < |walk| && Returned(pages[u], name) {
      ReturnedByRank(walk, pages, region, codec, u, name);
    }
    if u :| t < u < |walk| && OffsetAt(walk, u) <= Rank(Names(walk[u].response), name) {
      ReturnedByRank(walk, pages, region, codec, t, name);
      NamesGrow(walk, t, u);
      ReachedLater(walk, pages, region, codec, u, name);
    }
  }

  lemma {:induction false} NamesGrow(walk: seq<Fetch>, t: nat, u: nat)
    requires t <= u < |walk| && Inserting(walk)
    ensures Names(walk[t].response) <= Names(walk[u].response)
    decreases u - t
  {
    if t < u { NamesGrow(walk, t, u - 1); }
  }

  /** Every name inserted before fetch t comes at or behind the offset reached by then. */
  ghost predicate InsertedBehind(walk: seq<Fetch>, t: nat)
    requires 0 < t < |walk|
  {
    forall x :: x in Names(walk[t].response) && x !in Names(walk[t - 1].response)
      ==> OffsetAt(walk, t) <= Rank(Names(walk[t].response), x)
  }

  /** Two different fetches return the name. */
  ghost predicate Repeated(pages: seq<Page>, name: Str) {
    exists t, u :: 0 <= t < u < |pages| && Returned(pages[t], name) && Returned(pages[u], name)
  }

  /** Under insertions, a finished walk repeats nothing exactly if no inserted name lands before the
      offset the walk had reached. */
  lemma NothingRepeatedIffInsertedBehind(walk: seq<Fetch>, pages: seq<Page>, region: string, codec: Codec)
    requires Faithful(codec) && IsWalk(walk, pages, region, codec) && Inserting(walk)
    requires walk != [] && pages[|pages| - 1].next == None
    ensures (forall name :: !Repeated(pages, name)) <==> (forall t :: 0 < t < |walk| ==> InsertedBehind(walk, t))
  {
    if forall t :: 0 < t < |walk| ==> InsertedBehind(walk, t) {
      forall name ensures !Repeated(pages, name) {
        if t, u :| 0 <= t < u < |pages| && Returned(pages[t], name) && Returned(pages[u], name) {
          ReturnedByRank(walk, pages, region, codec, t, name);
          StaysPassed(walk, pages, region, codec, t, u, name);
          ReturnedByRank(walk, pages, region, codec, u, name);
          assert false;
        }
      }
    } else {
      var t :| 0 < t < |walk| && !InsertedBehind(walk, t);
      var first := FirstInsertedBefore(walk, t);
      var name := PushedBehind(walk, pages, region, codec, first);
      assert Repeated(pages, name);
    }
  }

  /** A passed name stays passed while nothing is inserted before the offset. */
  lemma {:induction false} StaysPassed(walk: seq<Fetch>, pages: seq<Page>, region: string, codec: Codec, t: nat,
    u: nat, name: Str)
    requires Faithful(codec) && IsWalk(walk, pages, region, codec) && Inserting(walk) && t < u < |walk|
    requires forall v :: 0 < v < |walk| ==> InsertedBehind(walk, v)
    requires name in Names(walk[t].response) && Rank(Names(walk[t].response), name) < OffsetAt(walk, t + 1)
    ensures name in Names(walk[u].response) && Rank(Names(walk[u].response), name) < OffsetAt(walk, u)
    decreases u - t
  {
    if t + 1 < u {
      StaysPassed(walk, pages, region, codec, t, u - 1, name);
      OffsetMonotone(walk, u - 1, u);
    }
    PassedAcross(walk, pages, region, codec, u, name);
  }

  lemma PassedAcross(walk: seq<Fetch>, pages: seq<Page>, region: string, codec: Codec, u: nat, name: Str)
    requires Faithful(codec) && IsWalk(walk, pages, region, codec) && Inserting(walk) && 0 < u < |walk|
    requires InsertedBehind(walk, u)
    requires name in Names(walk[u - 1].response) && Rank(Names(walk[u - 1].response), name) < OffsetAt(walk, u)
    ensures name in Names(walk[u].response) && Rank(Names(walk[u].response), name) < OffsetAt(walk, u)
  {
    var was, now, offset := Names(walk[u - 1].response), Names(walk[u].response), OffsetAt(walk, u);
    LongerThanOffset(walk, pages, region, codec, u - 1);
    NamesSize(walk[u - 1].response);
    NamesSize(walk[u].response);
    SubsetSize(was, now);
    PassedSize(walk[u].response, offset);
    var passed := Passed(now, offset);
    if Rank(now, name) >= offset {
      forall p | p in passed ensures p in was && Before(p, name) { PassedBefore(now, offset, p, name); }
      RankAtLeast(was, passed, name);
    }
  }

  lemma {:induction false} FirstInsertedBefore(walk: seq<Fetch>, t: nat) returns (first: nat)
    requires 0 < t < |walk| && !InsertedBehind(walk, t)
    ensures 0 < first < |walk| && !InsertedBehind(walk, first)
    ensures forall u :: 0 < u < first ==> InsertedBehind(walk, u)
  {
    if u :| 0 < u < t && !InsertedBehind(walk, u) {
      first := FirstInsertedBefore(walk, u);
    } else {
      first := t;
    }
  }

  /** Until then, every passed name has been returned. */
  lemma {:induction false} PassedWasReturned(walk: seq<Fetch>, pages: seq<Page>, region: string, codec: Codec, t: nat,
    name: Str) returns (s: nat)
    requires Faithful(codec) && IsWalk(walk, pages, region, codec) && Inserting(walk) && t < |walk|
    requires forall u :: 0 < u <= t ==> InsertedBehind(walk, u)
    requires name in Names(walk[t].response) && Rank(Names(walk[t].response), name) < OffsetAt(walk, t + 1)
    ensures s <= t && Returned(pages[s], name)
  {
    ReturnedByRank(walk, pages, region, codec, t, name);
    if OffsetAt(walk, t) <= Rank(Names(walk[t].response), name) {
      s := t;
    } else {
      assert InsertedBehind(walk, t);
      RankMonotone(Names(walk[t - 1].response), Names(walk[t].response), name);
      s := PassedWasReturned(walk, pages, region, codec, t - 1, name);
    }
  }

  /** The first name inserted before the offset pushes the last passed name behind it. */
  lemma PushedBehind(walk: seq<Fetch>, pages: seq<Page>, region: string, codec: Codec, t: nat) returns (name: Str)
    requires Faithful(codec) && IsWalk(walk, pages, region, codec) && Inserting(walk)
    requires 0 < t < |walk| && pages[|pages| - 1].next == None
    requires !InsertedBehind(walk, t) && forall u :: 0 < u < t ==> InsertedBehind(walk, u)
    ensures Repeated(pages, name)
  {
    var was, now, offset := Names(walk[t - 1].response), Names(walk[t].response), OffsetAt(walk, t);
    var x :| x in now && x !in was && Rank(now, x) < offset;
    LongerThanOffset(walk, pages, region, codec, t - 1);
    name := LastPassed(walk[t - 1].response, offset);
    LandsBefore(was, now, offset, x, name);
    var s := PassedWasReturned(walk, pages, region, codec, t - 1, name);
    assert s < t;
    RepeatedIffPushedBehind(walk, pages, region, codec, s, name);
  }

  lemma LastPassed(response: seq<Bucket>, offset: nat) returns (name: Str)
    requires DistinctNames(response) && 0 < offset < |response|
    ensures name in Names(response) && Rank(Names(response), name) == offset - 1
  {
    SortedNames(response);
    name := Sorting.Sort(response, NameOrder)[offset - 1].name;
    SortedPosition(response, offset - 1);
  }

  lemma LandsBefore(was: set<Str>, now: set<Str>, offset: nat, x: Str, name: Str)
    requires was <= now && x in now && x !in was && Rank(now, x) < offset
    requires name in was && Rank(was, name) == offset - 1
    ensures Rank(now, name) >= offset
  {
    var below := set n | n in was && Before(n, name);
    LeTotal(x, name);
    if Before(x, name) {
      RankAtLeast(now, below + {x}, name);
    } else {
      RankStrict(now, name, x);
      RankMonotone(was, now, name);
    }
  }

  // ---- one walk each ----

  const A := Bucket([97], None)
  const B := Bucket([98], None)
  const C := Bucket([99], None)

  lemma ThreeNames()
    ensures Names([A, B, C]) == {A.name, B.name, C.name} && Names([B, C]) == {B.name, C.name}
    ensures DistinctNames([A, B, C]) && DistinctNames([B, C])
    ensures Rank({A.name, B.name, C.name}, B.name) == 1
    ensures Rank({B.name, C.name}, B.name) == 0
  {
    var abc, bc := [A, B, C], [B, C];
    assert abc[0].name in Names(abc) && abc[1].name in Names(abc) && abc[2].name in Names(abc);
    assert bc[0].name in Names(bc) && bc[1].name in Names(bc);
    RankIs({A.name, B.name, C.name}, B.name, {A.name});
    RankIs({B.name, C.name}, B.name, {});
  }

  lemma RankIs(names: set<Str>, name: Str, before: set<Str>)
    requires forall n :: n in before <==> n in names && Before(n, name)
    ensures Rank(names, name) == |before|
  {
    assert (set n | n in names && Before(n, name)) == before;
  }

  lemma SmallOffsetsHaveCursors(offset: nat, unicode: Integers.UnicodeDatabase)
    requires offset < 10
    ensures OffsetCodec(unicode).encode(offset).Some?
  {
    Pagination.CursorExists(offset);
  }

  lemma WalkOfTwo(codec: Codec, first: Fetch, second: Fetch, page0: Page, page1: Page, region: string)
    requires ListWith(codec, first.response, region, first.pageSize, None) == Ok(page0) && page0.next.Some?
    requires ListWith(codec, second.response, region, second.pageSize, page0.next) == Ok(page1)
    ensures IsWalk([first, second], [page0, page1], region, codec)
  {
    var walk, pages := [first, second], [page0, page1];
    assert IsFetch(walk, pages, region, codec, 0) && IsFetch(walk, pages, region, codec, 1);
  }

  /** Two fetches by a codec that has the cursors, ending with the second. */
  lemma FetchTwice(codec: Codec, r0: seq<Bucket>, r1: seq<Bucket>, pageSize: nat, region: string)
    returns (pages: seq<Page>)
    requires Faithful(codec) && Listable(codec, r0) && Listable(codec, r1)
    requires 1 < |r0| && 1 + pageSize >= |r1|
    ensures IsWalk([Fetch(r0, 1), Fetch(r1, pageSize)], pages, region, codec) && pages[1].next == None
  {
    FetchSucceeds(codec, r0, region, 1, None, 0);
    var page0 := ListWith(codec, r0, region, 1, None).value;
    FetchSucceeds(codec, r1, region, pageSize, page0.next, 1);
    var page1 := ListWith(codec, r1, region, pageSize, page0.next).value;
    WalkOfTwo(codec, Fetch(r0, 1), Fetch(r1, pageSize), page0, page1, region);
    pages := [page0, page1];
  }

  /** The repository's own cursors carry such a walk. */
  lemma TwoFetches(r0: seq<Bucket>, r1: seq<Bucket>, pageSize: nat, region: string, unicode: Integers.UnicodeDatabase)
    returns (pages: seq<Page>)
    requires 1 < |r0| < 10 && |r1| < 10 && 1 + pageSize >= |r1|
    ensures IsWalk([Fetch(r0, 1), Fetch(r1, pageSize)], pages, region, OffsetCodec(unicode))
    ensures pages[1].next == None
  {
    OffsetCodecIsFaithful(unicode);
    SmallOffsetsHaveCursors(|r0|, unicode);
    SmallOffsetsHaveCursors(|r1|, unicode);
    pages := FetchTwice(OffsetCodec(unicode), r0, r1, pageSize, region);
  }

  /** A deletion between fetches can make a walk that runs to its end miss a bucket that was there all
      along: from {a, b, c} one at a time, with a deleted after the first page, b is never returned. */
  lemma DeletionCanSkip(region: string, unicode: Integers.UnicodeDatabase) returns (pages: seq<Page>)
    ensures IsWalk([Fetch([A, B, C], 1), Fetch([B, C], 1)], pages, region, OffsetCodec(unicode))
    ensures pages[1].next == None && !Returned(pages[0], B.name) && !Returned(pages[1], B.name)
  {
    var walk, codec := [Fetch([A, B, C], 1), Fetch([B, C], 1)], OffsetCodec(unicode);
    pages := TwoFetches([A, B, C], [B, C], 1, region, unicode);
    OffsetCodecIsFaithful(unicode);
    ThreeNames();
    ReturnedByRank(walk, pages, region, codec, 0, B.name);
    ReturnedByRank(walk, pages, region, codec, 1, B.name);
    assert OffsetAt(walk, 0) == 0 && OffsetAt(walk, 1) == 1 && OffsetAt(walk, 2) == 2;
  }

  /** An insertion between fetches can make a walk that runs to its end return a bucket twice: from
      {b, c}, with a inserted after a first page of one, b is on both pages. */
  lemma InsertionCanRepeat(region: string, unicode: Integers.UnicodeDatabase) returns (pages: seq<Page>)
    ensures IsWalk([Fetch([B, C], 1), Fetch([A, B, C], 2)], pages, region, OffsetCodec(unicode))
    ensures pages[1].next == None && Returned(pages[0], B.name) && Returned(pages[1], B.name)
  {
    var walk, codec := [Fetch([B, C], 1), Fetch([A, B, C], 2)], OffsetCodec(unicode);
    pages := TwoFetches([B, C], [A, B, C], 2, region, unicode);
    OffsetCodecIsFaithful(unicode);
    ThreeNames();
    ReturnedByRank(walk, pages, region, codec, 0, B.name);
    ReturnedByRank(walk, pages, region, codec, 1, B.name);
    assert OffsetAt(walk, 0) == 0 && OffsetAt(walk, 1) == 1 && OffsetAt(walk, 2) == 3;
  }
}
