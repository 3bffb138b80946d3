/** S3's bucket listing: every fetch reads the whole list, sorts it by name and slices it at the
    offset carried in the cursor. */
module Buckets {
  import opened Wrappers
  import opened Errors
  import opened Text
  import opened Pagination
  import Decimal
  import Integers
  import Sorting

  datatype Bucket = Bucket(name: Str, createdAt: Option<real>)

  datatype BucketResource = BucketResource(id: Str, name: Str, region: string, createdAt: Option<real>)

  datatype Page = Page(items: seq<BucketResource>, next: Option<Str>)

  predicate NameOrder(a: Bucket, b: Bucket) {
    Le(a.name, b.name)
  }

  function ToResource(b: Bucket, region: string): BucketResource {
    BucketResource(b.name, b.name, region, b.createdAt)
  }

  function Resources(response: seq<Bucket>, region: string): (r: seq<BucketResource>)
    ensures |r| == |Sorting.Sort(response, NameOrder)|
    ensures forall i :: 0 <= i < |r| ==> r[i] == ToResource(Sorting.Sort(response, NameOrder)[i], region)
  {
    var sorted := Sorting.Sort(response, NameOrder);
    seq(|sorted|, i requires 0 <= i < |sorted| => ToResource(sorted[i], region))
  }

  /** `s[lo:hi]`, where a negative end counts from the back. */
  function Slice<T>(s: seq<T>, lo: nat, hi: int): seq<T> {
    var end := if hi < 0 then (if |s| + hi < 0 then 0 else |s| + hi) else if hi > |s| then |s| else hi;
    if lo >= end then [] else s[lo..end]
  }

  /** A cursor that is refused, or the ValueError `str` raises for an offset of over 4300 digits. */
  datatype ListError = Refused(error: AppError) | TooManyDigits

  /** The fetch, once the provider call succeeded. */
  function ListBuckets(response: seq<Bucket>, region: string, pageSize: int, cursor: Option<Str>,
    unicode: Integers.UnicodeDatabase): Result<Page, ListError>
  {
    ListWith(OffsetCodec(unicode), response, region, pageSize, cursor)
  }

  /** The cursor functions of the pagination module, as values: paging depends on them only through
      `Faithful`. */
  datatype Codec = Codec(decode: Option<Str> -> Result<nat, AppError>, encode: int -> Option<Str>)

  function OffsetCodec(unicode: Integers.UnicodeDatabase): Codec {
    Codec(cursor => DecodeCursor(cursor, unicode), offset => EncodeCursor(offset))
  }

  /** No cursor is the start, a cursor handed out for an offset is read back as that offset, and
      smaller offsets have cursors where larger ones do. */
  ghost predicate Faithful(codec: Codec) {
    && codec.decode(None) == Ok(0)
    && (forall o: nat :: codec.encode(o).Some? ==> codec.decode(codec.encode(o)) == Ok(o))
    && (forall o: nat, n: nat :: o <= n && codec.encode(n).Some? ==> codec.encode(o).Some?)
  }

  lemma OffsetCodecIsFaithful(unicode: Integers.UnicodeDatabase)
    ensures Faithful(OffsetCodec(unicode))
  {
    forall o: nat | EncodeCursor(o).Some? ensures DecodeCursor(EncodeCursor(o), unicode) == Ok(o) {
      CursorRoundTrip(o, unicode);
    }
    forall o: nat, n: nat | o <= n && EncodeCursor(n).Some? ensures EncodeCursor(o).Some? {
      CursorExists(o);
      CursorExists(n);
      Decimal.DigitsMonotone(o, n);
    }
  }

  function ListWith(codec: Codec, response: seq<Bucket>, region: string, pageSize: int, cursor: Option<Str>):
    Result<Page, ListError>
  {
    match codec.decode(cursor)
    case Err(e) => Err(Refused(e))
    case Ok(offset) =>
      var all := Resources(response, region);
      var next := offset + pageSize;
      var page := Slice(all, offset, next);
      if next < |all| then
        if codec.encode(next) == None then Err(TooManyDigits) else Ok(Page(page, codec.encode(next)))
      else Ok(Page(page, None))
  }

  // ---- a walk over a list that may change between fetches ----

  /** One fetch of a walk: what the provider holds at that moment and the page size asked for. */
  datatype Fetch = Fetch(response: seq<Bucket>, pageSize: nat)

  /** Following cursors from the start: each fetch but the first passes on the cursor it was given. */
  ghost predicate IsWalk(walk: seq<Fetch>, pages: seq<Page>, region: string, codec: Codec) {
    && |pages| == |walk|
    && forall t :: 0 <= t < |walk| ==> IsFetch(walk, pages, region, codec, t)
  }

  ghost predicate IsFetch(walk: seq<Fetch>, pages: seq<Page>, region: string, codec: Codec, t: nat)
    requires |pages| == |walk| && t < |walk|
  {
    && (t > 0 ==> pages[t - 1].next.Some?)
    && ListWith(codec, walk[t].response, region, walk[t].pageSize, if t == 0 then None else pages[t - 1].next)
         == Ok(pages[t])
  }

  /** The offset the walk has reached before fetch t. */
  function OffsetAt(walk: seq<Fetch>, t: nat): nat
    requires t <= |walk|
  {
    if t == 0 then 0 else OffsetAt(walk, t - 1) + walk[t - 1].pageSize
  }

  lemma {:induction false} OffsetMonotone(walk: seq<Fetch>, t: nat, u: nat)
    requires t <= u <= |walk|
    ensures OffsetAt(walk, t) <= OffsetAt(walk, u)
    decreases u - t
  {
    if t < u { OffsetMonotone(walk, t, u - 1); }
  }

  /** Each fetch sees the slice of its own sorted list from the offset the walk has reached, and the
      walk goes on exactly while that list is longer than the next offset. */
  lemma {:induction false} FetchMeaning(walk: seq<Fetch>, pages: seq<Page>, region: string,
    codec: Codec, t: nat)
    requires Faithful(codec) && IsWalk(walk, pages, region, codec) && t < |walk|
    ensures var all := Resources(walk[t].response, region);
      && pages[t].items == Slice(all, OffsetAt(walk, t), OffsetAt(walk, t + 1))
      && (pages[t].next.Some? <==> OffsetAt(walk, t + 1) < |all|)
      && (pages[t].next.Some? ==> codec.decode(pages[t].next) == Ok(OffsetAt(walk, t + 1)))
  {
    assert IsFetch(walk, pages, region, codec, t);
    if t > 0 {
      FetchMeaning(walk, pages, region, codec, t - 1);
    }
  }

  // ---- where a name stands in a sorted list ----

  ghost predicate DistinctNames(response: seq<Bucket>) {
    forall i, j :: 0 <= i < j < |response| ==> response[i].name != response[j].name
  }

  function Names(response: seq<Bucket>): set<Str> {
    set i | 0 <= i < |response| :: response[i].name
  }

  predicate Before(a: Str, b: Str) {
    a != b && Le(a, b)
  }

  /** How many of the names come before this one. */
  function Rank(names: set<Str>, name: Str): nat {
    |set n | n in names && Before(n, name)|
  }

  /** More names can only push a name back. */
  lemma RankMonotone(names: set<Str>, more: set<Str>, name: Str)
    requires names <= more
    ensures Rank(names, name) <= Rank(more, name)
  {
    var a, b := (set n | n in names && Before(n, name)), (set n | n in more && Before(n, name));
    SubsetSize(a, b);
  }

  lemma {:induction false} SubsetSize<T>(a: set<T>, b: set<T>)
    requires a <= b
    ensures |a| <= |b|
  {
    assert b == a + (b - a);
  }

  lemma NameOrderIsOrder()
    ensures Sorting.TotalPreorder(NameOrder)
  {
    forall a: Bucket, b: Bucket ensures NameOrder(a, b) || NameOrder(b, a) { LeTotal(a.name, b.name); }
    forall a: Bucket, b: Bucket, c: Bucket | NameOrder(a, b) && NameOrder(b, c) ensures NameOrder(a, c) {
      LeTransitive(a.name, b.name, c.name);
    }
  }

  lemma SortedDistinct(s: seq<Bucket>)
    requires DistinctNames(s)
    ensures DistinctNames(Sorting.Sort(s, NameOrder))
  {
    var key := (b: Bucket) => b.name;
    Sorting.SortDistinct(s, NameOrder, key);
    var r := Sorting.Sort(s, NameOrder);
    assert forall i, j :: 0 <= i < j < |r| ==> key(r[i]) != key(r[j]);
  }

  function Prefix(s: seq<Bucket>, i: nat): set<Str>
    requires i <= |s|
  {
    set j | 0 <= j < i :: s[j].name
  }

  lemma PrefixNext(s: seq<Bucket>, i: nat)
    requires DistinctNames(s) && i < |s|
    ensures Prefix(s, i + 1) == Prefix(s, i) + {s[i].name} && s[i].name !in Prefix(s, i)
  {
    assert forall j :: 0 <= j < i ==> s[j].name != s[i].name;
  }

  lemma {:induction false} PrefixSize(s: seq<Bucket>, i: nat)
    requires DistinctNames(s) && i <= |s|
    ensures |Prefix(s, i)| == i
  {
    if i > 0 {
      PrefixSize(s, i - 1);
      PrefixNext(s, i - 1);
    }
  }

  lemma SortedNames(response: seq<Bucket>)
    requires DistinctNames(response)
    ensures var s := Sorting.Sort(response, NameOrder);
      && |s| == |response| && DistinctNames(s)
      && Sorting.Sorted(s, NameOrder)
      && Prefix(s, |s|) == Names(response)
  {
    var s := Sorting.Sort(response, NameOrder);
    NameOrderIsOrder();
    Sorting.SortSorts(response, NameOrder);
    SortedDistinct(response);
    assert |s| == |multiset(s)| && |response| == |multiset(response)|;
    forall n: Str ensures n in Prefix(s, |s|) <==> n in Names(response) {
      if n in Prefix(s, |s|) {
        var j :| 0 <= j < |s| && s[j].name == n;
        assert s[j] in multiset(response);
      }
      if n in Names(response) {
        var j :| 0 <= j < |response| && response[j].name == n;
        assert response[j] in multiset(s);
      }
    }
  }

  /** In the sorted list every name stands at its rank. */
  lemma SortedPosition(response: seq<Bucket>, i: nat)
    requires DistinctNames(response) && i < |Sorting.Sort(response, NameOrder)|
    ensures Rank(Names(response), Sorting.Sort(response, NameOrder)[i].name) == i
    ensures Sorting.Sort(response, NameOrder)[i].name in Names(response)
  {
    var s := Sorting.Sort(response, NameOrder);
    SortedNames(response);
    assert s[i].name in Prefix(s, |s|);
    forall j | 0 <= j < |s| ensures Before(s[j].name, s[i].name) <==> j < i {
      if j < i {
        assert NameOrder(s[j], s[i]);
      } else if j > i {
        assert NameOrder(s[i], s[j]);
        if Le(s[j].name, s[i].name) { LeAntisymmetric(s[j].name, s[i].name); }
      }
    }
    assert (set n | n in Names(response) && Before(n, s[i].name)) == Prefix(s, i);
    PrefixSize(s, i);
  }

  /** Fetch t returns a name exactly when the provider holds it then and its rank lies between the
      offset reached and the next one. */
  lemma ReturnedByRank(walk: seq<Fetch>, pages: seq<Page>, region: string, codec: Codec, t: nat,
    name: Str)
    requires Faithful(codec) && IsWalk(walk, pages, region, codec) && t < |walk| && DistinctNames(walk[t].response)
    ensures Returned(pages[t], name) <==>
      name in Names(walk[t].response)
      && OffsetAt(walk, t) <= Rank(Names(walk[t].response), name) < OffsetAt(walk, t + 1)
  {
    FetchMeaning(walk, pages, region, codec, t);
    SliceByRank(walk[t].response, region, OffsetAt(walk, t), OffsetAt(walk, t + 1), pages[t], name);
  }

  lemma SliceByRank(response: seq<Bucket>, region: string, lo: nat, hi: nat, page: Page, name: Str)
    requires DistinctNames(response) && page.items == Slice(Resources(response, region), lo, hi)
    ensures Returned(page, name) <==> name in Names(response) && lo <= Rank(Names(response), name) < hi
  {
    var s, all := Sorting.Sort(response, NameOrder), Resources(response, region);
    if Returned(page, name) {
      var i :| 0 <= i < |page.items| && page.items[i].name == name;
      assert page.items[i] == all[lo + i];
      SortedPosition(response, lo + i);
    }
    if name in Names(response) && lo <= Rank(Names(response), name) < hi {
      var j := PositionOf(response, name);
      assert page.items[j - lo] == all[j];
    }
  }

  /** Every item is one of the buckets the fetch saw: its name as id and name, the region, its creation time. */
  lemma ItemsAreBuckets(walk: seq<Fetch>, pages: seq<Page>, region: string, codec: Codec, t: nat, r: BucketResource)
    requires Faithful(codec) && IsWalk(walk, pages, region, codec) && t < |walk| && r in pages[t].items
    ensures exists b :: b in walk[t].response && r == BucketResource(b.name, b.name, region, b.createdAt)
  {
    FetchMeaning(walk, pages, region, codec, t);
    assert r in Resources(walk[t].response, region);
    ResourcesAreBuckets(walk[t].response, region);
  }

  /** The full listing: one resource for each bucket, ordered by name from the front. */
  lemma ResourcesAreBuckets(response: seq<Bucket>, region: string)
    ensures var all := Resources(response, region);
      && |all| == |response|
      && (forall r :: r in all <==>
            exists b :: b in response && r == BucketResource(b.name, b.name, region, b.createdAt))
      && forall i, j :: 0 <= i < j < |all| ==> Lexicographic(all[i].name, all[j].name)
  {
    var sorted, all := Sorting.Sort(response, NameOrder), Resources(response, region);
    NameOrderIsOrder();
    Sorting.SortSorts(response, NameOrder);
    ResourcesLength(response, region);
    forall b ensures b in sorted <==> b in response {
      assert b in multiset(sorted) <==> b in multiset(response);
    }
    forall b | b in response ensures BucketResource(b.name, b.name, region, b.createdAt) in all {
      var i :| 0 <= i < |sorted| && sorted[i] == b;
      assert all[i] == ToResource(b, region);
    }
    forall i, j | 0 <= i < j < |all| ensures Lexicographic(all[i].name, all[j].name) {
      assert NameOrder(sorted[i], sorted[j]);
      LeMeaning(all[i].name, all[j].name);
    }
  }

  /** A negative end leaves out that many entries at the back. */
  lemma SliceFromTheBack<T>(s: seq<T>, lo: nat, hi: int)
    requires hi < 0
    ensures var kept := if -hi <= |s| then s[..|s| + hi] else [];
      Slice(s, lo, hi) == if lo <= |kept| then kept[lo..] else []
  {}

  lemma PositionOf(response: seq<Bucket>, name: Str) returns (j: nat)
    requires DistinctNames(response) && name in Names(response)
    ensures var s := Sorting.Sort(response, NameOrder);
      j < |s| && s[j].name == name && j == Rank(Names(response), name)
  {
    var s := Sorting.Sort(response, NameOrder);
    SortedNames(response);
    assert name in Prefix(s, |s|);
    j :| 0 <= j < |s| && s[j].name == name;
    SortedPosition(response, j);
  }

  predicate Returned(page: Page, name: Str) {
    exists i :: 0 <= i < |page.items| && page.items[i].name == name
  }

  // ---- what a walk promises while the list changes ----

  lemma RankInRange(names: set<Str>, name: Str)
    requires name in names
    ensures Rank(names, name) < |names|
  {
    var before := set n | n in names && Before(n, name);
    SubsetSize(before + {name}, names);
  }

  /** Every fetch sees distinct names, among them all names of the fetch before it. */
  ghost predicate Inserting(walk: seq<Fetch>) {
    && (forall t :: 0 <= t < |walk| ==> DistinctNames(walk[t].response))
    && (forall t :: 0 < t < |walk| ==> Names(walk[t - 1].response) <= Names(walk[t].response))
  }

  /** Every fetch sees distinct names, none of them new since the fetch before it. */
  ghost predicate Deleting(walk: seq<Fetch>) {
    && (forall t :: 0 <= t < |walk| ==> DistinctNames(walk[t].response))
    && (forall t :: 0 < t < |walk| ==> Names(walk[t].response) <= Names(walk[t - 1].response))
  }

  /** If only insertions happen between fetches, a walk that reaches the end has returned every bucket
      that was there at its start: insertions only push names back, never behind the offset. */
  lemma InsertionsLoseNothing(walk: seq<Fetch>, pages: seq<Page>, region: string, codec: Codec,
    name: Str)
    requires Faithful(codec) && IsWalk(walk, pages, region, codec) && walk != [] && Inserting(walk)
    requires pages[|pages| - 1].next == None
    requires name in Names(walk[0].response)
    ensures exists t :: 0 <= t < |walk| && Returned(pages[t], name)
  {
    ReachedLater(walk, pages, region, codec, 0, name);
  }

  /** Under insertions, a name at or behind the offset is still returned before the walk ends. */
  lemma ReachedLater(walk: seq<Fetch>, pages: seq<Page>, region: string, codec: Codec, s: nat, name: Str)
    requires Faithful(codec) && IsWalk(walk, pages, region, codec) && Inserting(walk)
    requires s < |walk| && pages[|pages| - 1].next == None
    requires name in Names(walk[s].response) && OffsetAt(walk, s) <= Rank(Names(walk[s].response), name)
    ensures exists t :: s <= t < |walk| && Returned(pages[t], name)
  {
    if forall t :: s <= t < |walk| ==> !Returned(pages[t], name) {
      var last := |walk| - 1;
      NotYetReached(walk, pages, region, codec, s, last, name);
      ReturnedByRank(walk, pages, region, codec, last, name);
      BehindTheEnd(walk, pages, region, codec, name);
      assert false;
    }
  }

  lemma {:induction false} NotYetReached(walk: seq<Fetch>, pages: seq<Page>, region: string,
    codec: Codec, s: nat, t: nat, name: Str)
    requires Faithful(codec) && IsWalk(walk, pages, region, codec) && Inserting(walk) && s <= t < |walk|
    requires name in Names(walk[s].response) && OffsetAt(walk, s) <= Rank(Names(walk[s].response), name)
    requires forall u :: s <= u < t ==> !Returned(pages[u], name)
    ensures name in Names(walk[t].response) && OffsetAt(walk, t) <= Rank(Names(walk[t].response), name)
    decreases t - s
  {
    if t > s {
      NotYetReached(walk, pages, region, codec, s, t - 1, name);
      ReturnedByRank(walk, pages, region, codec, t - 1, name);
      RankMonotone(Names(walk[t - 1].response), Names(walk[t].response), name);
    }
  }

  lemma NamesSize(response: seq<Bucket>)
    requires DistinctNames(response)
    ensures |Names(response)| == |response|
  {
    SortedNames(response);
    PrefixSize(Sorting.Sort(response, NameOrder), |response|);
  }

  /** Where a walk ends, the offset it would go on from is behind every name. */
  lemma BehindTheEnd(walk: seq<Fetch>, pages: seq<Page>, region: string, codec: Codec, name: Str)
    requires Faithful(codec) && IsWalk(walk, pages, region, codec) && walk != []
    requires DistinctNames(walk[|walk| - 1].response) && pages[|pages| - 1].next == None
    requires name in Names(walk[|walk| - 1].response)
    ensures Rank(Names(walk[|walk| - 1].response), name) < OffsetAt(walk, |walk|)
  {
    var last := |walk| - 1;
    FetchMeaning(walk, pages, region, codec, last);
    ResourcesLength(walk[last].response, region);
    NamesSize(walk[last].response);
    RankInRange(Names(walk[last].response), name);
  }

  lemma {:induction false} NamesShrink(walk: seq<Fetch>, t: nat, u: nat)
    requires t <= u < |walk|
    requires Deleting(walk)
    ensures Names(walk[u].response) <= Names(walk[t].response)
    decreases u - t
  {
    if t < u { NamesShrink(walk, t, u - 1); }
  }

  /** If only deletions happen between fetches, no bucket is returned by two fetches: deletions only
      pull names forward, never past the offset. */
  lemma DeletionsRepeatNothing(walk: seq<Fetch>, pages: seq<Page>, region: string, codec: Codec,
    t: nat, u: nat, name: Str)
    requires Faithful(codec) && IsWalk(walk, pages, region, codec) && Deleting(walk)
    requires t < u < |walk| && Returned(pages[t], name)
    ensures !Returned(pages[u], name)
  {
    ReturnedByRank(walk, pages, region, codec, t, name);
    ReturnedByRank(walk, pages, region, codec, u, name);
    NamesShrink(walk, t, u);
    RankMonotone(Names(walk[u].response), Names(walk[t].response), name);
    OffsetMonotone(walk, t + 1, u);
  }

  // ---- a walk over a list that does not change ----

  function Concat(pages: seq<Page>): seq<BucketResource> {
    if pages == [] then [] else pages[0].items + Concat(pages[1..])
  }

  /** Following the cursors until there is none. `offset` is what the cursor stands for. */
  ghost function PagesFrom(codec: Codec, response: seq<Bucket>, region: string, pageSize: nat, cursor: Option<Str>,
    offset: nat): (r: seq<Page>)
    requires pageSize >= 1 && Faithful(codec) && Listable(codec, response) && codec.decode(cursor) == Ok(offset)
    ensures r != []
    decreases |response| - offset
  {
    FetchSucceeds(codec, response, region, pageSize, cursor, offset);
    var page := ListWith(codec, response, region, pageSize, cursor).value;
    if page.next == None then [page]
    else [page] + PagesFrom(codec, response, region, pageSize, page.next, offset + pageSize)
  }

  /** The offsets into the list have cursors. */
  predicate Listable(codec: Codec, response: seq<Bucket>) {
    codec.encode(|response|).Some?
  }

  lemma ResourcesLength(response: seq<Bucket>, region: string)
    ensures |Resources(response, region)| == |response|
  {
    NameOrderIsOrder();
    Sorting.SortSorts(response, NameOrder);
    assert |Sorting.Sort(response, NameOrder)| == |multiset(Sorting.Sort(response, NameOrder))|;
    assert |response| == |multiset(response)|;
  }

  /** A fetch at an offset returns the entries from there on, at most a page of them; a cursor comes
      with a full page, stands for the next offset, and that lies inside the list. */
  lemma FetchSucceeds(codec: Codec, response: seq<Bucket>, region: string, pageSize: nat, cursor: Option<Str>,
    offset: nat)
    requires Faithful(codec) && Listable(codec, response) && codec.decode(cursor) == Ok(offset)
    ensures ListWith(codec, response, region, pageSize, cursor).Ok?
    ensures var page, all := ListWith(codec, response, region, pageSize, cursor).value, Resources(response, region);
      && |all| == |response|
      && page.items == Slice(all, offset, offset + pageSize)
      && (page.next.Some? <==> offset + pageSize < |response|)
      && (page.next.Some? ==> codec.decode(page.next) == Ok(offset + pageSize))
  {
    ResourcesLength(response, region);
  }

  /** The number of fetches it takes to read n entries, p at a time; an empty list still takes one. */
  function Fetches(n: int, p: nat): nat
    requires p >= 1
  {
    if n <= p then 1 else 1 + Fetches(n - p, p)
  }

  /** That number is n / p rounded up, but never 0. */
  lemma {:induction false} FetchesIsCeiling(n: int, p: nat)
    requires p >= 1
    ensures (Fetches(n, p) - 1) * p < AtLeastOne(n) <= Fetches(n, p) * p
  {
    if n > p { FetchesIsCeiling(n - p, p); }
  }

  function AtLeastOne(n: int): int {
    if n < 1 then 1 else n
  }

  /** From any offset inside the list the pages that follow are exactly the rest of it, every page but
      the last full, in as many fetches as that takes. */
  lemma {:induction false} PagesAreTheRest(codec: Codec, response: seq<Bucket>, region: string, pageSize: nat,
    cursor: Option<Str>, offset: nat)
    requires pageSize >= 1 && Faithful(codec) && Listable(codec, response) && codec.decode(cursor) == Ok(offset)
    requires offset <= |response|
    ensures var pages := PagesFrom(codec, response, region, pageSize, cursor, offset);
      && |Resources(response, region)| == |response|
      && Concat(pages) == Resources(response, region)[offset..]
      && |pages| == Fetches(|response| - offset, pageSize)
      && forall i :: 0 <= i < |pages| - 1 ==> |pages[i].items| == pageSize
    decreases |response| - offset
  {
    var all := Resources(response, region);
    FetchSucceeds(codec, response, region, pageSize, cursor, offset);
    var page := ListWith(codec, response, region, pageSize, cursor).value;
    if page.next == None {
      OnePage(page);
    } else {
      PagesAreTheRest(codec, response, region, pageSize, page.next, offset + pageSize);
      PageThenRest(page, PagesFrom(codec, response, region, pageSize, page.next, offset + pageSize), all, offset,
        pageSize);
    }
  }

  lemma PageThenRest(page: Page, more: seq<Page>, all: seq<BucketResource>, offset: nat, pageSize: nat)
    requires offset + pageSize <= |all| && page.items == Slice(all, offset, offset + pageSize)
    requires Concat(more) == all[offset + pageSize..]
    ensures Concat([page] + more) == all[offset..]
  {
    MorePages(page, more);
    SliceThenRest(all, offset, pageSize);
  }

  lemma SliceThenRest<T>(s: seq<T>, lo: nat, n: nat)
    requires lo + n <= |s|
    ensures s[lo..] == Slice(s, lo, lo + n) + s[lo + n..]
  {}

  lemma OnePage(page: Page)
    ensures Concat([page]) == page.items
  {
    assert [page][1..] == [] && page.items + [] == page.items;
  }

  lemma MorePages(page: Page, pages: seq<Page>)
    ensures Concat([page] + pages) == page.items + Concat(pages)
  {
    assert ([page] + pages)[1..] == pages;
  }

  /** Over an unchanged list, following cursors from the start returns one entry for each bucket, ordered
      by name from the front, in max(1, ceil(n / pageSize)) fetches. */
  lemma ExactPaging(codec: Codec, response: seq<Bucket>, region: string, pageSize: nat)
    requires pageSize >= 1 && Faithful(codec) && Listable(codec, response)
    ensures var pages := PagesFrom(codec, response, region, pageSize, None, 0);
      && Concat(pages) == Resources(response, region)
      && |pages| == Fetches(|response|, pageSize)
      && |Concat(pages)| == |response|
      && (forall r :: r in Concat(pages) <==>
            exists b :: b in response && r == BucketResource(b.name, b.name, region, b.createdAt))
      && (forall i, j :: 0 <= i < j < |Concat(pages)| ==>
            Lexicographic(Concat(pages)[i].name, Concat(pages)[j].name))
      && (|pages| - 1) * pageSize < AtLeastOne(|response|) <= |pages| * pageSize
      && forall i :: 0 <= i < |pages| - 1 ==> |pages[i].items| == pageSize
  {
    PagesAreTheRest(codec, response, region, pageSize, None, 0);
    FetchesIsCeiling(|response|, pageSize);
    ResourcesAreBuckets(response, region);
    assert Resources(response, region)[0..] == Resources(response, region);
  }

  /** Those pages are a walk: each but the first is fetched with the cursor before it, and the last has none. */
  lemma PagesAreAWalk(codec: Codec, response: seq<Bucket>, region: string, pageSize: nat)
    requires pageSize >= 1 && Faithful(codec) && Listable(codec, response)
    ensures var pages := PagesFrom(codec, response, region, pageSize, None, 0);
      && IsWalk(seq(|pages|, _ => Fetch(response, pageSize)), pages, region, codec)
      && pages[|pages| - 1].next == None
  {
    var pages := PagesFrom(codec, response, region, pageSize, None, 0);
    PagesFollow(codec, response, region, pageSize, None, 0);
    var walk := seq(|pages|, _ => Fetch(response, pageSize));
    forall t | 0 <= t < |walk| ensures IsFetch(walk, pages, region, codec, t) {
      assert Follows(codec, response, region, pageSize, None, pages, t);
    }
  }

  /** Page t is what the cursor before it fetches. */
  ghost predicate Follows(codec: Codec, response: seq<Bucket>, region: string, pageSize: nat, cursor: Option<Str>,
    pages: seq<Page>, t: nat)
    requires t < |pages|
  {
    && (t > 0 ==> pages[t - 1].next.Some?)
    && ListWith(codec, response, region, pageSize, if t == 0 then cursor else pages[t - 1].next) == Ok(pages[t])
  }

  lemma {:induction false} PagesFollow(codec: Codec, response: seq<Bucket>, region: string, pageSize: nat,
    cursor: Option<Str>, offset: nat)
    requires pageSize >= 1 && Faithful(codec) && Listable(codec, response) && codec.decode(cursor) == Ok(offset)
    ensures var pages := PagesFrom(codec, response, region, pageSize, cursor, offset);
      && (forall t :: 0 <= t < |pages| ==> Follows(codec, response, region, pageSize, cursor, pages, t))
      && pages[|pages| - 1].next == None
    decreases |response| - offset
  {
    FetchSucceeds(codec, response, region, pageSize, cursor, offset);
    var page := ListWith(codec, response, region, pageSize, cursor).value;
    var pages := PagesFrom(codec, response, region, pageSize, cursor, offset);
    if page.next.Some? {
      var rest := PagesFrom(codec, response, region, pageSize, page.next, offset + pageSize);
      PagesFollow(codec, response, region, pageSize, page.next, offset + pageSize);
      assert pages == [page] + rest;
      forall t | 0 <= t < |pages| ensures Follows(codec, response, region, pageSize, cursor, pages, t) {
        if t > 0 { assert Follows(codec, response, region, pageSize, page.next, rest, t - 1); }
      }
    }
  }
}
