/** The records the application keeps (`types/index.ts`) and the by-id list
    updates its handlers apply to them. */
module Records {
  import opened Wrappers
  import opened Calendar

  /** A measurement. The date is held as its calendar fields rather than an
      ISO string; `ambientTemperature` is the field the CSV import adds. */
  datatype DataLog = DataLog(
    id: string,
    date: DateTime,
    temperature: real,
    humidity: real,
    ph: Option<real>,
    ec: Option<real>,
    ambientTemperature: Option<real>,
    notes: Option<string>)

  datatype CompostImage = CompostImage(id: string, url: string, caption: Option<string>, dateUploaded: string)

  /** A material of the C:N list and its quantity in parts; `None` is a NaN quantity. */
  datatype MaterialInput = MaterialInput(name: string, quantity: Option<real>)

  datatype CompostProfile = CompostProfile(
    id: string,
    name: string,
    color: string,
    initialComposition: string,
    cnMaterialsUsed: Option<seq<MaterialInput>>,
    calculatedCNRatio: Option<string>,
    cnRatioNotes: Option<string>,
    dataLogs: seq<DataLog>,
    images: seq<CompostImage>,
    createdAt: string)

  // ---- `filter(x => key(x) !== k)` and `map(x => key(x) === key(y) ? y : x)` ----

  /** The elements whose key is not `k`, in their order. */
  function RemoveKey<T>(xs: seq<T>, key: T -> string, k: string): (r: seq<T>)
    ensures |r| <= |xs|
    ensures forall i :: 0 <= i < |r| ==> r[i] in xs && key(r[i]) != k
    ensures forall i :: 0 <= i < |xs| && key(xs[i]) != k ==> xs[i] in r
  {
    if xs == [] then []
    else if key(xs[0]) == k then RemoveKey(xs[1..], key, k)
    else [xs[0]] + RemoveKey(xs[1..], key, k)
  }

  /** Removing distributes over concatenation: the survivors keep their order. */
  lemma {:induction false} RemoveKeyAppend<T>(xs: seq<T>, ys: seq<T>, key: T -> string, k: string)
    ensures RemoveKey(xs + ys, key, k) == RemoveKey(xs, key, k) + RemoveKey(ys, key, k)
  {
    if xs == [] {
      assert xs + ys == ys;
    } else {
      assert (xs + ys)[0] == xs[0];
      assert (xs + ys)[1..] == xs[1..] + ys;
      RemoveKeyAppend(xs[1..], ys, key, k);
    }
  }

  /** Nothing carries the key: nothing is removed. */
  lemma {:induction false} RemoveAbsentKey<T>(xs: seq<T>, key: T -> string, k: string)
    requires forall i :: 0 <= i < |xs| ==> key(xs[i]) != k
    ensures RemoveKey(xs, key, k) == xs
  {
    if xs != [] {
      RemoveAbsentKey(xs[1..], key, k);
    }
  }

  /** Exactly the elements carrying the key are removed, so with unique keys one is. */
  lemma {:induction false} RemoveKeyCount<T>(xs: seq<T>, key: T -> string, k: string)
    ensures |RemoveKey(xs, key, k)| == |xs| - |KeyIndices(xs, key, k)|
  {
    if xs != [] {
      RemoveKeyCount(xs[1..], key, k);
    }
  }

  /** With unique keys, removing a key that is present removes one element. */
  lemma {:induction false} RemoveUniqueKey<T>(xs: seq<T>, key: T -> string, k: string)
    requires UniqueIds(xs, key) && exists i :: 0 <= i < |xs| && key(xs[i]) == k
    ensures |RemoveKey(xs, key, k)| == |xs| - 1
  {
    var rest := xs[1..];
    assert forall i :: 0 <= i < |rest| ==> rest[i] == xs[i + 1];
    if key(xs[0]) == k {
      RemoveAbsentKey(rest, key, k);
    } else {
      var i :| 0 <= i < |xs| && key(xs[i]) == k;
      assert key(rest[i - 1]) == k;
      RemoveUniqueKey(rest, key, k);
    }
  }

  /** Removing keeps the keys unique. */
  lemma {:induction false} RemoveKeyKeepsUnique<T>(xs: seq<T>, key: T -> string, k: string)
    requires UniqueIds(xs, key)
    ensures UniqueIds(RemoveKey(xs, key, k), key)
  {
    if xs != [] {
      var rest := xs[1..];
      assert forall i :: 0 <= i < |rest| ==> rest[i] == xs[i + 1];
      RemoveKeyKeepsUnique(rest, key, k);
      if key(xs[0]) != k {
        var tail := RemoveKey(rest, key, k);
        forall j | 0 <= j < |tail| ensures key(tail[j]) != key(xs[0]) {
          var m :| 0 <= m < |rest| && rest[m] == tail[j];
          assert key(xs[m + 1]) != key(xs[0]);
        }
        var r := [xs[0]] + tail;
        forall a, b | 0 <= a < b < |r| ensures key(r[a]) != key(r[b]) {
          if a == 0 {
            assert r[b] == tail[b - 1];
          } else {
            assert r[a] == tail[a - 1] && r[b] == tail[b - 1];
          }
        }
      }
    }
  }

  /** The positions whose element carries key `k`. */
  function KeyIndices<T>(xs: seq<T>, key: T -> string, k: string): (r: seq<nat>)
    ensures forall j :: 0 <= j < |r| ==> r[j] < |xs| && key(xs[r[j]]) == k
    ensures |r| <= |xs|
  {
    if xs == [] then []
    else
      var rest := KeyIndices(xs[1..], key, k);
      var shifted := seq(|rest|, j requires 0 <= j < |rest| => rest[j] + 1);
      assert forall j :: 0 <= j < |shifted| ==> xs[shifted[j]] == xs[1..][rest[j]];
      if key(xs[0]) == k then [0] + shifted else shifted
  }

  /** Each element whose key is that of `y` replaced by `y`, the rest kept, in place. */
  function ReplaceKey<T>(xs: seq<T>, key: T -> string, y: T): (r: seq<T>)
    ensures |r| == |xs|
    ensures forall i :: 0 <= i < |xs| && key(xs[i]) == key(y) ==> r[i] == y
    ensures forall i :: 0 <= i < |xs| && key(xs[i]) != key(y) ==> r[i] == xs[i]
  {
    if xs == [] then []
    else [if key(xs[0]) == key(y) then y else xs[0]] + ReplaceKey(xs[1..], key, y)
  }

  /** Replacing by a key nobody has changes nothing; replacing twice is replacing once. */
  lemma ReplaceKeyIdempotent<T>(xs: seq<T>, key: T -> string, y: T)
    ensures ReplaceKey(ReplaceKey(xs, key, y), key, y) == ReplaceKey(xs, key, y)
    ensures (forall i :: 0 <= i < |xs| ==> key(xs[i]) != key(y)) ==> ReplaceKey(xs, key, y) == xs
  {
    var r := ReplaceKey(xs, key, y);
    var rr := ReplaceKey(r, key, y);
    assert forall i :: 0 <= i < |xs| ==> rr[i] == r[i];
  }

  function LogId(l: DataLog): string { l.id }
  function ImageId(m: CompostImage): string { m.id }
  function ProfileId(p: CompostProfile): string { p.id }

  predicate UniqueIds<T>(xs: seq<T>, key: T -> string) {
    forall i, j :: 0 <= i < j < |xs| ==> key(xs[i]) != key(xs[j])
  }

  // ---- `sort((a, b) => time(b) - time(a))`: newest first ----

  function Time(l: DataLog): int { Timestamp(l.date) }

  predicate NewestFirst(xs: seq<DataLog>) {
    forall i, j :: 0 <= i < j < |xs| ==> Time(xs[i]) >= Time(xs[j])
  }

  /** `x` placed before the first element that is not newer than it. */
  function Insert(x: DataLog, xs: seq<DataLog>): (r: seq<DataLog>)
    requires NewestFirst(xs)
    ensures NewestFirst(r)
    ensures multiset(r) == multiset(xs) + multiset{x}
    ensures |r| == |xs| + 1
  {
    if xs == [] then [x]
    else if Time(xs[0]) <= Time(x) then
      ConsNewestFirst(x, xs);
      [x] + xs
    else
      var tail := Insert(x, xs[1..]);
      assert xs == [xs[0]] + xs[1..];
      HeadAboveInserted(x, xs, tail);
      ConsNewestFirst(xs[0], tail);
      [xs[0]] + tail
  }

  /** The head of a newest-first list, newer than `x`, is no older than
      anything in the rest with `x` put in. */
  lemma HeadAboveInserted(x: DataLog, xs: seq<DataLog>, tail: seq<DataLog>)
    requires NewestFirst(xs) && xs != [] && Time(xs[0]) > Time(x)
    requires multiset(tail) == multiset(xs[1..]) + multiset{x}
    ensures forall k :: 0 <= k < |tail| ==> Time(xs[0]) >= Time(tail[k])
  {
    forall k | 0 <= k < |tail| ensures Time(xs[0]) >= Time(tail[k]) {
      assert tail[k] in multiset(xs[1..]) + multiset{x};
      if tail[k] != x {
        assert tail[k] in xs[1..];
        var j :| 0 <= j < |xs[1..]| && xs[1..][j] == tail[k];
        assert xs[j + 1] == tail[k];
      }
    }
  }

  /** A log no older than every log of a newest-first list may go in front of it. */
  lemma ConsNewestFirst(h: DataLog, t: seq<DataLog>)
    requires NewestFirst(t)
    requires forall k :: 0 <= k < |t| ==> Time(h) >= Time(t[k])
    ensures NewestFirst([h] + t)
  {
    var r := [h] + t;
    forall i, j | 0 <= i < j < |r| ensures Time(r[i]) >= Time(r[j]) {
      assert r[j] == t[j - 1];
      if i > 0 { assert r[i] == t[i - 1]; }
    }
  }

  /** The logs newest first; the multiset of logs is unchanged. */
  function SortNewestFirst(xs: seq<DataLog>): (r: seq<DataLog>)
    ensures NewestFirst(r)
    ensures multiset(r) == multiset(xs)
    ensures |r| == |xs|
  {
    if xs == [] then []
    else
      assert xs == [xs[0]] + xs[1..];
      Insert(xs[0], SortNewestFirst(xs[1..]))
  }

  /** Sorting a list that is already newest first gives it back. */
  lemma {:induction false} SortSorted(xs: seq<DataLog>)
    requires NewestFirst(xs)
    ensures SortNewestFirst(xs) == xs
  {
    if xs != [] {
      assert NewestFirst(xs[1..]);
      SortSorted(xs[1..]);
      if |xs| > 1 {
        assert Time(xs[1]) <= Time(xs[0]);
      }
    }
  }
}
