/**
 * The local sound repository of storage/localSounds.tsx: all records live in one
 * serialized list under the key "@sounds", and every operation reads that list
 * whole and, if it changes it, writes it back whole.
 */
module Storage {
  import opened Wrappers
  import opened Text
  import opened Sounds

  /** The sort keys `list` accepts: "-created_date" (the default) and "created_date". */
  datatype Order = NewestFirst | OldestFirst

  /** The one error the repository throws: `new Error("Not found")`. */
  datatype Error = NotFound

  /**
   * JavaScript's `a > b` on two `created_date` values; a missing date is `undefined`,
   * which is neither greater nor smaller than anything.
   */
  predicate Later(a: Option<string>, b: Option<string>)
    ensures (a.None? || b.None?) ==> !Later(a, b)
    ensures Later(a, b) ==> a != b
  {
    a.Some? && b.Some? && Less(b.value, a.value)
  }

  /**
   * The comparator `list` passes to `Array.prototype.sort`: 1 asks for `a` to go
   * after `b`. It never answers 0, not even for equal timestamps.
   */
  function Compare(order: Order, a: Sound, b: Sound): (r: int)
    ensures r == 1 || r == -1
    ensures r == 1 <==>
      (a.createdDate.Some? && b.createdDate.Some? &&
       if order == NewestFirst then Less(a.createdDate.value, b.createdDate.value)
       else Less(b.createdDate.value, a.createdDate.value))
  {
    if order == NewestFirst then
      (if Later(b.createdDate, a.createdDate) then 1 else -1)
    else
      (if Later(a.createdDate, b.createdDate) then 1 else -1)
  }

  /**
   * Every record carries a `created_date`, as the non-null assertions
   * `created_date!` in the comparator take for granted. Only then do the
   * comparator's answers agree with one order on dates: -1 both ways for equal
   * dates, and 1 only for an earlier date in front of a later one (newest first),
   * or a later one in front of an earlier one (oldest first).
   */
  ghost predicate AllDated(m: multiset<Sound>)
  {
    forall x :: x in m ==> x.createdDate.Some?
  }

  /** No pair of records is left in an order the comparator asks to swap. */
  ghost predicate SortedFor(order: Order, r: seq<Sound>)
  {
    forall i, j :: 0 <= i < j < |r| ==> Compare(order, r[i], r[j]) == -1
  }

  /**
   * Listed newest first, the dates of any two dated records never increase; a record
   * without a date is unconstrained.
   */
  lemma NewestFirstNonIncreasing(r: seq<Sound>, i: nat, j: nat)
    requires SortedFor(NewestFirst, r)
    requires i < j < |r| && r[i].createdDate.Some? && r[j].createdDate.Some?
    ensures !Less(r[i].createdDate.value, r[j].createdDate.value)
  {
    assert Compare(NewestFirst, r[i], r[j]) == -1;
  }

  /** Listed oldest first, the dates of any two dated records never decrease. */
  lemma OldestFirstNonDecreasing(r: seq<Sound>, i: nat, j: nat)
    requires SortedFor(OldestFirst, r)
    requires i < j < |r| && r[i].createdDate.Some? && r[j].createdDate.Some?
    ensures !Less(r[j].createdDate.value, r[i].createdDate.value)
  {
    assert Compare(OldestFirst, r[i], r[j]) == -1;
  }

  /**
   * The total preorder the model sorts by: dates compared as strings, a missing
   * date below every date.
   */
  predicate KeyLess(x: Option<string>, y: Option<string>)
  {
    y.Some? && (x.None? || Less(x.value, y.value))
  }

  lemma KeyNotLessTransitive(x: Option<string>, y: Option<string>, z: Option<string>)
    requires !KeyLess(x, y) && !KeyLess(y, z)
    ensures !KeyLess(x, z)
  {
    if x.Some? && y.Some? && z.Some? {
      NotLessTransitive(x.value, y.value, z.value);
    }
  }

  /** `a` may stay in front of `b`. */
  predicate Before(order: Order, a: Sound, b: Sound)
  {
    if order == NewestFirst then !KeyLess(a.createdDate, b.createdDate)
    else !KeyLess(b.createdDate, a.createdDate)
  }

  lemma BeforeTotal(order: Order, a: Sound, b: Sound)
    ensures Before(order, a, b) || Before(order, b, a)
  {
    if a.createdDate.Some? && b.createdDate.Some? && Less(a.createdDate.value, b.createdDate.value) {
      LessAsymmetric(a.createdDate.value, b.createdDate.value);
    }
  }

  lemma BeforeTransitive(order: Order, a: Sound, b: Sound, c: Sound)
    requires Before(order, a, b) && Before(order, b, c)
    ensures Before(order, a, c)
  {
    if order == NewestFirst {
      KeyNotLessTransitive(a.createdDate, b.createdDate, c.createdDate);
    } else {
      KeyNotLessTransitive(c.createdDate, b.createdDate, a.createdDate);
    }
  }

  /** The model's order only ever keeps pairs the source's comparator accepts. */
  lemma BeforeAgreesWithCompare(order: Order, a: Sound, b: Sound)
    requires Before(order, a, b)
    ensures Compare(order, a, b) == -1
  {
  }

  ghost predicate OrderedBy(order: Order, s: seq<Sound>)
  {
    forall i, j :: 0 <= i < j < |s| ==> Before(order, s[i], s[j])
  }

  /** Every ordered pair among the first `i + 1` records, except pairs involving `j`. */
  ghost predicate OrderedExcept(order: Order, s: seq<Sound>, j: nat, i: nat)
    requires i < |s|
  {
    forall p, q :: 0 <= p < q <= i && p != j && q != j ==> Before(order, s[p], s[q])
  }

  /** The record at `j` may stay in front of every record after it, up to `i`. */
  ghost predicate HeadBefore(order: Order, s: seq<Sound>, j: nat, i: nat)
    requires i < |s|
  {
    forall q :: j < q <= i ==> Before(order, s[j], s[q])
  }

  /** Swapping the moving record with the one in front of it keeps both invariants. */
  lemma SwapStep(order: Order, s: seq<Sound>, j: nat, i: nat)
    requires 0 < j <= i < |s|
    requires OrderedExcept(order, s, j, i) && HeadBefore(order, s, j, i)
    requires !Before(order, s[j - 1], s[j])
    ensures OrderedExcept(order, s[j - 1 := s[j]][j := s[j - 1]], j - 1, i)
    ensures HeadBefore(order, s[j - 1 := s[j]][j := s[j - 1]], j - 1, i)
  {
    BeforeTotal(order, s[j - 1], s[j]);
  }

  /** Swapping two neighbours inside the first `i + 1` records permutes them and leaves the rest. */
  lemma SwapInPrefix(s: seq<Sound>, j: nat, i: nat)
    requires 0 < j <= i < |s|
    ensures multiset(s[j - 1 := s[j]][j := s[j - 1]][..i + 1]) == multiset(s[..i + 1])
    ensures s[j - 1 := s[j]][j := s[j - 1]][i + 1..] == s[i + 1..]
  {
    var t := s[j - 1 := s[j]][j := s[j - 1]];
    assert t[..i + 1] == s[..i + 1][j - 1 := s[j]][j := s[j - 1]];
  }

  /** Equal tails and permuted prefixes make permuted sequences. */
  lemma PrefixAndTail(s: seq<Sound>, t: seq<Sound>, n: nat)
    requires n <= |s| == |t|
    requires multiset(t[..n]) == multiset(s[..n]) && t[n..] == s[n..]
    ensures multiset(t) == multiset(s)
  {
    assert s == s[..n] + s[n..] && t == t[..n] + t[n..];
  }

  /** Where the moving record stops, the first `i + 1` records are ordered. */
  lemma InsertDone(order: Order, s: seq<Sound>, j: nat, i: nat)
    requires j <= i < |s|
    requires OrderedExcept(order, s, j, i) && HeadBefore(order, s, j, i)
    requires j == 0 || Before(order, s[j - 1], s[j])
    ensures OrderedBy(order, s[..i + 1])
  {
    forall p, q | 0 <= p < q <= i
      ensures Before(order, s[p], s[q])
    {
      if q == j && p < j - 1 {
        BeforeTransitive(order, s[p], s[j - 1], s[j]);
      }
    }
  }

  /**
   * One pass of the insertion sort: moves `a[i]` left until the first `i + 1`
   * records are ordered.
   */
  method InsertNext(a: array<Sound>, i: nat, order: Order)
    requires i < a.Length && OrderedBy(order, a[..i])
    modifies a
    ensures OrderedBy(order, a[..i + 1])
    ensures multiset(a[..i + 1]) == multiset(old(a[..i + 1]))
    ensures a[i + 1..] == old(a[i + 1..])
    ensures multiset(a[..]) == multiset(old(a[..]))
  {
    var j := i;
    while 0 < j && !Before(order, a[j - 1], a[j])
      invariant 0 <= j <= i
      invariant OrderedExcept(order, a[..], j, i) && HeadBefore(order, a[..], j, i)
      invariant multiset(a[..i + 1]) == multiset(old(a[..i + 1]))
      invariant a[i + 1..] == old(a[i + 1..])
    {
      SwapStep(order, a[..], j, i);
      SwapInPrefix(a[..], j, i);
      a[j - 1], a[j] := a[j], a[j - 1];
      j := j - 1;
    }
    InsertDone(order, a[..], j, i);
    PrefixAndTail(old(a[..]), a[..], i + 1);
  }

  /**
   * `data.sort(comparator)`: sorts the array in place by insertion. It ends up a
   * permutation of what it held, and, when every record is dated, in an order the
   * comparator accepts.
   */
  method SortInPlace(a: array<Sound>, order: Order)
    modifies a
    ensures multiset(a[..]) == multiset(old(a[..]))
    ensures AllDated(multiset(old(a[..]))) ==> SortedFor(order, a[..])
  {
    var i := 0;
    while i < a.Length
      invariant 0 <= i <= a.Length
      invariant OrderedBy(order, a[..i])
      invariant multiset(a[..]) == multiset(old(a[..]))
    {
      InsertNext(a, i, order);
      i := i + 1;
    }
    assert a[..] == a[..a.Length];
    forall p, q | 0 <= p < q < a.Length
      ensures Compare(order, a[p], a[q]) == -1
    {
      BeforeAgreesWithCompare(order, a[p], a[q]);
    }
  }

  /** `s` back to front. */
  function Reverse(s: seq<Sound>): (r: seq<Sound>)
    ensures |r| == |s|
  {
    seq(|s|, k requires 0 <= k < |s| => s[|s| - 1 - k])
  }

  lemma {:induction false} ReversePermutes(s: seq<Sound>)
    ensures multiset(Reverse(s)) == multiset(s)
  {
    if s != [] {
      var init := s[..|s| - 1];
      assert Reverse(s) == [s[|s| - 1]] + Reverse(init);
      assert s == init + [s[|s| - 1]];
      ReversePermutes(init);
    }
  }

  /** Read back to front, a list in oldest-first order is in newest-first order. */
  lemma OldestFirstReversed(r: seq<Sound>)
    requires SortedFor(OldestFirst, r)
    ensures SortedFor(NewestFirst, Reverse(r))
  {
    var n := |r|;
    forall i, j | 0 <= i < j < n
      ensures Compare(NewestFirst, Reverse(r)[i], Reverse(r)[j]) == -1
    {
      assert Compare(OldestFirst, r[n - 1 - j], r[n - 1 - i]) == -1;
    }
  }

  /**
   * Every record is dated, and no two different records share a date: the case in
   * which the comparator is consistent and the sorted order is fully determined.
   */
  ghost predicate DistinctlyDated(m: multiset<Sound>)
  {
    && AllDated(m)
    && (forall x, y :: x in m && y in m && x.createdDate == y.createdDate ==> x == y)
  }

  /** Two newest-first arrangements of the same distinctly dated records start alike. */
  lemma NewestFirstSameHead(r1: seq<Sound>, r2: seq<Sound>)
    requires r1 != [] && multiset(r1) == multiset(r2) && DistinctlyDated(multiset(r1))
    requires SortedFor(NewestFirst, r1) && SortedFor(NewestFirst, r2)
    ensures r2 != [] && r1[0] == r2[0]
  {
    assert r1[0] in multiset(r2);
    var m :| 0 <= m < |r2| && r2[m] == r1[0];
    assert r2[0] in multiset(r1);
    var k :| 0 <= k < |r1| && r1[k] == r2[0];
    var a, b := r1[0].createdDate.value, r2[0].createdDate.value;
    if k == 0 { LessIrreflexive(a); } else { assert Compare(NewestFirst, r1[0], r1[k]) == -1; }
    if m == 0 { LessIrreflexive(b); } else { assert Compare(NewestFirst, r2[0], r2[m]) == -1; }
    NotLessAntisymmetric(a, b);
  }

  lemma SortedTail(order: Order, r: seq<Sound>)
    requires r != [] && SortedFor(order, r)
    ensures SortedFor(order, r[1..])
  {
    var t := r[1..];
    forall i, j | 0 <= i < j < |t| ensures Compare(order, t[i], t[j]) == -1 {
      assert t[i] == r[i + 1] && t[j] == r[j + 1];
    }
  }

  lemma SameTails(r1: seq<Sound>, r2: seq<Sound>)
    requires r1 != [] && r2 != [] && r1[0] == r2[0] && multiset(r1) == multiset(r2)
    ensures multiset(r1[1..]) == multiset(r2[1..]) && multiset(r1[1..]) <= multiset(r1)
  {
    assert r1 == [r1[0]] + r1[1..] && r2 == [r2[0]] + r2[1..];
    var h, t1, t2 := multiset{r1[0]}, multiset(r1[1..]), multiset(r2[1..]);
    assert multiset(r1) == h + t1 && multiset(r2) == h + t2;
    forall x
      ensures t1[x] == t2[x]
    {
      assert (h + t1)[x] == h[x] + t1[x] && (h + t2)[x] == h[x] + t2[x];
    }
  }

  lemma DistinctlyDatedSubset(m1: multiset<Sound>, m2: multiset<Sound>)
    requires m1 <= m2 && DistinctlyDated(m2)
    ensures DistinctlyDated(m1)
  {
  }

  /** With distinct dates there is only one newest-first arrangement of the records. */
  lemma {:induction false} NewestFirstUnique(r1: seq<Sound>, r2: seq<Sound>)
    requires multiset(r1) == multiset(r2) && DistinctlyDated(multiset(r1))
    requires SortedFor(NewestFirst, r1) && SortedFor(NewestFirst, r2)
    ensures r1 == r2
  {
    if r1 != [] {
      NewestFirstSameHead(r1, r2);
      SameTails(r1, r2);
      DistinctlyDatedSubset(multiset(r1[1..]), multiset(r1));
      SortedTail(NewestFirst, r1);
      SortedTail(NewestFirst, r2);
      NewestFirstUnique(r1[1..], r2[1..]);
      assert r1 == [r1[0]] + r1[1..] && r2 == [r2[0]] + r2[1..];
    }
  }

  /**
   * With distinct dates, the oldest-first list is exactly the newest-first list read
   * back to front.
   */
  lemma ListOrdersReverse(newest: seq<Sound>, oldest: seq<Sound>)
    requires multiset(newest) == multiset(oldest) && DistinctlyDated(multiset(newest))
    requires SortedFor(NewestFirst, newest) && SortedFor(OldestFirst, oldest)
    ensures newest == Reverse(oldest)
  {
    OldestFirstReversed(oldest);
    ReversePermutes(oldest);
    NewestFirstUnique(newest, Reverse(oldest));
  }

  /**
   * `list.findIndex(s => s.id === id)`: the first index holding the id, or -1 when
   * none does.
   */
  function FindIndex(s: seq<Sound>, id: string): (r: int)
    ensures -1 <= r < |s|
    ensures r == -1 <==> forall k :: 0 <= k < |s| ==> s[k].id != id
    ensures r >= 0 ==> s[r].id == id && forall k :: 0 <= k < r ==> s[k].id != id
  {
    if s == [] then -1
    else if s[0].id == id then 0
    else
      var k := FindIndex(s[1..], id);
      if k == -1 then -1 else k + 1
  }

  /** `list.find(x => x.id === id)`: the first record holding the id, if any. */
  function Find(s: seq<Sound>, id: string): (r: Option<Sound>)
    ensures r.None? <==> FindIndex(s, id) == -1
    ensures r.Some? ==> r.value == s[FindIndex(s, id)]
  {
    if s == [] then None
    else if s[0].id == id then Some(s[0])
    else Find(s[1..], id)
  }

  /**
   * `list.filter(x => x.id !== id)`: every record with the id is gone, duplicates
   * included, and nothing changes when no record has the id.
   */
  function Without(s: seq<Sound>, id: string): (r: seq<Sound>)
    ensures forall k :: 0 <= k < |r| ==> r[k].id != id
    ensures FindIndex(s, id) == -1 ==> r == s
  {
    if s == [] then []
    else if s[0].id == id then Without(s[1..], id)
    else [s[0]] + Without(s[1..], id)
  }

  /** The filter keeps every other record exactly as often as it occurred. */
  lemma {:induction false} WithoutCounts(s: seq<Sound>, id: string)
    ensures forall x :: multiset(Without(s, id))[x] == if x.id == id then 0 else multiset(s)[x]
  {
    if s != [] {
      assert s == [s[0]] + s[1..];
      WithoutCounts(s[1..], id);
    }
  }

  /** The filter keeps the relative order of what it keeps: it distributes over `+`. */
  lemma {:induction false} WithoutAppend(a: seq<Sound>, b: seq<Sound>, id: string)
    ensures Without(a + b, id) == Without(a, id) + Without(b, id)
  {
    if a != [] {
      var ab := a + b;
      assert ab[0] == a[0] && ab[1..] == a[1..] + b;
      WithoutAppend(a[1..], b, id);
      if a[0].id == id {
        assert Without(ab, id) == Without(a[1..] + b, id);
      } else {
        assert Without(ab, id) == [a[0]] + Without(a[1..] + b, id);
        assert Without(a, id) == [a[0]] + Without(a[1..], id);
        assert [a[0]] + (Without(a[1..], id) + Without(b, id)) == ([a[0]] + Without(a[1..], id)) + Without(b, id);
      }
    } else {
      assert a + b == b;
    }
  }

  /** Removing twice leaves what removing once left. */
  lemma WithoutIdempotent(s: seq<Sound>, id: string)
    ensures Without(Without(s, id), id) == Without(s, id)
  {
  }

  /** After `remove(id)` no record has the id any more, so `update(id, ...)` fails. */
  lemma RemovedIdNotFound(s: seq<Sound>, id: string)
    ensures FindIndex(Without(s, id), id) == -1 && Find(Without(s, id), id) == None
  {
  }

  /**
   * The record `create` just put at the front is the one `update` and `remove` find
   * for its id, even if an older record carries the same id.
   */
  lemma CreatedRecordFoundFirst(item: Sound, s: seq<Sound>)
    ensures FindIndex([item] + s, item.id) == 0 && Find([item] + s, item.id) == Some(item)
  {
  }

  /** `FileSystem.documentDirectory ?? ""`, as `remove` reads it. */
  function DocDir(documentDirectory: Option<string>): (dir: string)
    ensures documentDirectory.Some? ==> dir == documentDirectory.value
    ensures documentDirectory.None? ==> forall s :: StartsWith(s, dir)
  {
    documentDirectory.GetOr("")
  }

  /**
   * The file `remove` asks to delete: the `audio_url` of the first record with the
   * id, when that is a non-empty string starting with the documents directory.
   */
  function DeletionTarget(found: Option<Sound>, documentDirectory: Option<string>): (r: Option<string>)
    ensures r.Some? <==> found.Some? && found.value.audioUrl != "" &&
                         StartsWith(found.value.audioUrl, DocDir(documentDirectory))
    ensures r.Some? ==> r.value == found.value.audioUrl
  {
    match found
    case None => None
    case Some(s) =>
      if s.audioUrl != "" && StartsWith(s.audioUrl, DocDir(documentDirectory)) then Some(s.audioUrl)
      else None
  }

  /** How a template literal renders a `string | null`. */
  function TemplateText(value: Option<string>): string
  {
    if value.Some? then value.value else "null"
  }

  /**
   * The template literal `${FileSystem.documentDirectory}${Date.now()}-${name}` of
   * `saveRecordingLocally`: a null documents directory is rendered as "null".
   */
  function SaveRecordingLocally(documentDirectory: Option<string>, now: nat, name: string): (fileUrl: string)
    ensures documentDirectory.Some? ==> StartsWith(fileUrl, documentDirectory.value)
    ensures documentDirectory.None? ==> StartsWith(fileUrl, "null")
    ensures |fileUrl| > |name| && fileUrl[|fileUrl| - |name| ..] == name
  {
    var dir := TemplateText(documentDirectory);
    var tail := DecimalString(now) + "-" + name;
    StartsWithConcat(dir, tail);
    assert (dir + tail)[|dir + tail| - |name| ..] == name;
    dir + tail
  }

  /**
   * In a given documents directory, two saves with different clock values or
   * different names never produce the same path.
   */
  lemma SaveRecordingLocallyInjective(documentDirectory: Option<string>, now1: nat, name1: string, now2: nat, name2: string)
    requires SaveRecordingLocally(documentDirectory, now1, name1) == SaveRecordingLocally(documentDirectory, now2, name2)
    ensures now1 == now2 && name1 == name2
  {
    var dir := TemplateText(documentDirectory);
    var t1, t2 := DecimalString(now1) + "-" + name1, DecimalString(now2) + "-" + name2;
    assert (dir + t1)[|dir|..] == t1 && (dir + t2)[|dir|..] == t2;
    DashSplit(DecimalString(now1), name1, DecimalString(now2), name2);
    DecimalStringInjective(now1, now2);
  }

  /**
   * A record whose `audio_url` is a saved recording passes the test `remove` makes
   * before deleting the file, whether or not the documents directory is known.
   */
  lemma SavedRecordingIsDeletable(s: Sound, documentDirectory: Option<string>, now: nat, name: string)
    requires s.audioUrl == SaveRecordingLocally(documentDirectory, now, name)
    ensures DeletionTarget(Some(s), documentDirectory) == Some(s.audioUrl)
  {
    assert StartsWith(s.audioUrl, DocDir(documentDirectory));
  }

  /**
   * The repository. `entry` is the item stored under "@sounds" (`None` while the key
   * is missing); `deleteRequests` records the paths handed to
   * `FileSystem.deleteAsync`, in order.
   */
  class LocalSounds {
    var entry: Option<seq<Sound>>
    ghost var deleteRequests: seq<string>

    constructor ()
      ensures entry == None && deleteRequests == []
    {
      entry := None;
      deleteRequests := [];
    }

    /** `readAll()`: the stored list, or the empty list while nothing is stored. */
    function Records(): (r: seq<Sound>)
      reads this
      ensures entry.None? ==> r == []
    {
      entry.GetOr([])
    }

    /**
     * `list(order)`: the stored records, rearranged with none added or dropped, and,
     * when every record is dated, in an order the comparator accepts. The store is
     * only read.
     */
    method List(order: Order := NewestFirst) returns (r: seq<Sound>)
      ensures multiset(r) == multiset(Records())
      ensures AllDated(multiset(Records())) ==> SortedFor(order, r)
    {
      var data := Records();
      var a := new Sound[|data|](k requires 0 <= k < |data| => data[k]);
      assert a[..] == data;
      SortInPlace(a, order);
      r := a[..];
    }

    /**
     * `create(payload)`: stamps the payload with the clock's id and the given ISO
     * date, puts the record at the front of the list and stores the list.
     */
    method Create(payload: NewSound, now: nat, isoNow: string) returns (item: Sound)
      modifies this
      ensures item == NewRecord(payload, DecimalString(now), isoNow)
      ensures entry == Some([item] + old(Records()))
      ensures deleteRequests == old(deleteRequests)
    {
      var list := Records();
      item := NewRecord(payload, DecimalString(now), isoNow);
      list := [item] + list;
      entry := Some(list);
    }

    /**
     * `update(id, patch)`: fails with NotFound, before writing, when no record has
     * the id; otherwise replaces the first record with the id by the merge and
     * returns the merged record.
     */
    method Update(id: string, patch: Patch) returns (r: Result<Sound, Error>)
      modifies this
      ensures r.Failure? <==> FindIndex(old(Records()), id) == -1
      ensures r.Failure? ==> r.error == NotFound && entry == old(entry)
      ensures r.Success? ==>
        var idx := FindIndex(old(Records()), id);
        r.value == Merge(old(Records())[idx], patch) &&
        entry == Some(old(Records())[idx := r.value])
      ensures deleteRequests == old(deleteRequests)
    {
      var list := Records();
      var idx := FindIndex(list, id);
      if idx == -1 {
        return Failure(NotFound);
      }
      var updated := Merge(list[idx], patch);
      list := list[idx := updated];
      entry := Some(list);
      r := Success(updated);
    }

    /**
     * `remove(id)`: stores the list without any record holding the id, then asks to
     * delete the first such record's file if it lies in the documents directory. A
     * failed deletion is ignored, so `remove` never fails.
     */
    method Remove(id: string, documentDirectory: Option<string>)
      modifies this
      ensures entry == Some(Without(old(Records()), id))
      ensures var target := DeletionTarget(Find(old(Records()), id), documentDirectory);
        deleteRequests == old(deleteRequests) + (if target.Some? then [target.value] else [])
    {
      var list := Records();
      var s := Find(list, id);
      var next := Without(list, id);
      entry := Some(next);
      var target := DeletionTarget(s, documentDirectory);
      if target.Some? {
        deleteRequests := deleteRequests + [target.value];
      }
    }
  }
}
