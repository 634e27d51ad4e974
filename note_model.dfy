/** The note record shared by the popup and the background worker, and the
    ordering both of them export notes in: ascending by timestamp, with ties
    kept in insertion order (JavaScript's Array.prototype.sort is stable). */
module NoteModel {

  /** One user annotation. `timestamp` is the playback position in whole
      seconds; `id` is the creation-time token used by delete; `createdAt`
      is informational only. */
  datatype Note = Note(id: int, content: string, timestamp: nat, isCode: bool, createdAt: string)

  /** Non-decreasing by timestamp. */
  predicate Sorted(s: seq<Note>) {
    forall p, q :: 0 <= p < q < |s| ==> s[p].timestamp <= s[q].timestamp
  }

  /** The notes of `s` whose timestamp is `t`, in their order in `s`.
      A reordering is stable exactly when it keeps every such subsequence. */
  function FilterTs(s: seq<Note>, t: nat): seq<Note> {
    if s == [] then []
    else (if s[0].timestamp == t then [s[0]] else []) + FilterTs(s[1..], t)
  }

  /** Same subsequence of notes for every timestamp. */
  ghost predicate SameTies(a: seq<Note>, b: seq<Note>) {
    forall t :: FilterTs(a, t) == FilterTs(b, t)
  }

  /** Places `x` in front of the first note of `r` that is not earlier than it,
      so that `x` stays ahead of every note of `r` with the same timestamp. */
  function Insert(x: Note, r: seq<Note>): (r': seq<Note>)
    ensures |r'| == |r| + 1
    ensures multiset(r') == multiset(r) + multiset{x}
  {
    if r == [] || x.timestamp <= r[0].timestamp then [x] + r
    else
      assert r == [r[0]] + r[1..];
      [r[0]] + Insert(x, r[1..])
  }

  lemma {:induction false} InsertSorted(x: Note, r: seq<Note>)
    requires Sorted(r)
    ensures Sorted(Insert(x, r))
  {
    if r != [] && x.timestamp > r[0].timestamp {
      InsertSorted(x, r[1..]);
      var rest := Insert(x, r[1..]);
      assert r == [r[0]] + r[1..];
      forall k | 0 <= k < |rest| ensures r[0].timestamp <= rest[k].timestamp {
        assert rest[k] in multiset(rest);
      }
    }
  }

  /** The comparator sort `(a, b) => a.timestamp - b.timestamp` as a stable
      insertion sort. */
  function StableSort(s: seq<Note>): (r: seq<Note>)
    ensures |r| == |s|
  {
    if s == [] then [] else Insert(s[0], StableSort(s[1..]))
  }

  lemma {:induction false} FilterTsAppend(a: seq<Note>, b: seq<Note>, t: nat)
    ensures FilterTs(a + b, t) == FilterTs(a, t) + FilterTs(b, t)
  {
    if a != [] {
      assert (a + b)[1..] == a[1..] + b;
      FilterTsAppend(a[1..], b, t);
    } else {
      assert a + b == b;
    }
  }

  /** Inserting `x` adds it in front of the notes of `r` that share its timestamp. */
  lemma {:induction false} InsertTies(x: Note, r: seq<Note>, t: nat)
    ensures FilterTs(Insert(x, r), t) == (if x.timestamp == t then [x] else []) + FilterTs(r, t)
  {
    if r == [] || x.timestamp <= r[0].timestamp {
      assert ([x] + r)[1..] == r;
    } else {
      InsertTies(x, r[1..], t);
      assert ([r[0]] + Insert(x, r[1..]))[1..] == Insert(x, r[1..]);
    }
  }

  lemma {:induction false} StableSortSorted(s: seq<Note>)
    ensures Sorted(StableSort(s))
  {
    if s != [] {
      StableSortSorted(s[1..]);
      InsertSorted(s[0], StableSort(s[1..]));
    }
  }

  lemma {:induction false} StableSortPermutation(s: seq<Note>)
    ensures multiset(StableSort(s)) == multiset(s)
  {
    if s != [] {
      StableSortPermutation(s[1..]);
      assert s == [s[0]] + s[1..];
    }
  }

  /** Ties keep their insertion order. */
  lemma {:induction false} StableSortStable(s: seq<Note>, t: nat)
    ensures FilterTs(StableSort(s), t) == FilterTs(s, t)
  {
    if s != [] {
      StableSortStable(s[1..], t);
      InsertTies(s[0], StableSort(s[1..]), t);
    }
  }

  lemma StableSortSameTies(s: seq<Note>)
    ensures SameTies(StableSort(s), s)
  {
    forall t { StableSortStable(s, t); }
  }

  lemma {:induction false} FilterTsHasFirst(s: seq<Note>)
    requires s != []
    ensures FilterTs(s, s[0].timestamp) != [] && FilterTs(s, s[0].timestamp)[0] == s[0]
  {
  }

  /** Every note of FilterTs(s, t) is a note of `s`. */
  lemma {:induction false} FilterTsIn(s: seq<Note>, t: nat, x: Note)
    requires x in FilterTs(s, t)
    ensures x in s && x.timestamp == t
  {
    if s != [] && !(s[0].timestamp == t && x == s[0]) {
      FilterTsIn(s[1..], t, x);
    }
  }

  /** A sorted sequence is determined by its per-timestamp subsequences: any
      two stable sorts of the same notes produce the same sequence. */
  lemma {:induction false} SortedStableUnique(x: seq<Note>, y: seq<Note>)
    requires Sorted(x) && Sorted(y) && SameTies(x, y)
    ensures x == y
  {
    if x == [] || y == [] {
      if x != [] { FilterTsHasFirst(x); }
      if y != [] { FilterTsHasFirst(y); }
    } else {
      var a, b := x[0], y[0];
      FilterTsHasFirst(x);
      FilterTsHasFirst(y);
      assert a in FilterTs(y, a.timestamp);
      FilterTsIn(y, a.timestamp, a);
      assert b in FilterTs(x, b.timestamp);
      FilterTsIn(x, b.timestamp, b);
      assert a.timestamp == b.timestamp;
      assert a == b;
      forall t ensures FilterTs(x[1..], t) == FilterTs(y[1..], t) {
        var p := if a.timestamp == t then [a] else [];
        assert FilterTs(x, t) == p + FilterTs(x[1..], t);
        assert FilterTs(y, t) == p + FilterTs(y[1..], t);
        assert FilterTs(x[1..], t) == (p + FilterTs(x[1..], t))[|p|..];
        assert FilterTs(y[1..], t) == (p + FilterTs(y[1..], t))[|p|..];
      }
      SortedStableUnique(x[1..], y[1..]);
      assert x == [a] + x[1..] && y == [b] + y[1..];
    }
  }

  /** Sorting a sorted copy again changes nothing. */
  lemma StableSortIdempotent(s: seq<Note>)
    ensures StableSort(StableSort(s)) == StableSort(s)
  {
    var r := StableSort(s);
    StableSortSorted(s);
    StableSortSorted(r);
    StableSortSameTies(r);
    SortedStableUnique(StableSort(r), r);
  }

  /** Any sorted sequence with the same ties as `s` is the stable sort of `s`. */
  lemma SortedSameTiesIsStableSort(s: seq<Note>, r: seq<Note>)
    requires Sorted(r) && SameTies(r, s)
    ensures r == StableSort(s)
  {
    StableSortSorted(s);
    StableSortSameTies(s);
    SortedStableUnique(r, StableSort(s));
  }

  /** Swapping two adjacent notes with different timestamps keeps every tie
      subsequence. */
  lemma SwapKeepsTies(s: seq<Note>, j: nat)
    requires 0 < j < |s| && s[j - 1].timestamp != s[j].timestamp
    ensures SameTies(s[j - 1 := s[j]][j := s[j - 1]], s)
  {
    var s' := s[j - 1 := s[j]][j := s[j - 1]];
    var pre, post := s[..j - 1], s[j + 1..];
    assert s == pre + ([s[j - 1]] + ([s[j]] + post));
    assert s' == pre + ([s[j]] + ([s[j - 1]] + post));
    forall t ensures FilterTs(s', t) == FilterTs(s, t) {
      FilterTsAppend(pre, [s[j]] + ([s[j - 1]] + post), t);
      FilterTsAppend([s[j]], [s[j - 1]] + post, t);
      FilterTsAppend([s[j - 1]], post, t);
      FilterTsAppend(pre, [s[j - 1]] + ([s[j]] + post), t);
      FilterTsAppend([s[j - 1]], [s[j]] + post, t);
      FilterTsAppend([s[j]], post, t);
    }
  }

  lemma SortedAppendLatest(s: seq<Note>, n: Note)
    requires forall k :: 0 <= k < |s| ==> s[k].timestamp <= n.timestamp
    ensures Sorted(StableSort(s) + [n])
  {
    var sorted := StableSort(s);
    StableSortSorted(s);
    StableSortPermutation(s);
    forall k | 0 <= k < |sorted| ensures sorted[k].timestamp <= n.timestamp {
      assert sorted[k] in multiset(s);
    }
  }

  /** Appending a note no earlier than every other appends it to the sorted copy. */
  lemma StableSortAppendLatest(s: seq<Note>, n: Note)
    requires forall k :: 0 <= k < |s| ==> s[k].timestamp <= n.timestamp
    ensures StableSort(s + [n]) == StableSort(s) + [n]
  {
    var sorted := StableSort(s);
    var r := sorted + [n];
    SortedAppendLatest(s, n);
    forall t ensures FilterTs(r, t) == FilterTs(s + [n], t) {
      FilterTsAppend(sorted, [n], t);
      FilterTsAppend(s, [n], t);
      StableSortStable(s, t);
    }
    SortedSameTiesIsStableSort(s + [n], r);
  }
}
