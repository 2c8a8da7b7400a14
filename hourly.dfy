/** The peak-power-hour computation: records that carry a timestamp are
    grouped into hour buckets in insertion order (`hourly_power`, a dict
    built with `setdefault(...).append`), and the bucket with the highest
    mean power wins, the first one on a tie (`max` over the dict items). */
module Hourly {
  import opened Wrappers
  import opened Records
  import opened Stats

  const SecondsPerHour: int := 3600

  /** `timestamp.replace(minute=0, second=0, microsecond=0)`: the start of the
      hour that holds instant `t`. */
  function HourOf(t: int): (h: int)
    ensures h % SecondsPerHour == 0
    ensures h <= t < h + SecondsPerHour
  {
    t - t % SecondsPerHour
  }

  /** What one timestamped record contributes: its hour and its power. */
  datatype Sample = Sample(hour: int, power: real)

  /** One item of `hourly_power`: an hour and the powers appended under it. */
  datatype Bucket = Bucket(hour: int, powers: seq<real>)

  predicate HasHour(buckets: seq<Bucket>, h: int)
  {
    exists i :: 0 <= i < |buckets| && buckets[i].hour == h
  }

  /** A dict has each key once. */
  predicate DistinctHours(buckets: seq<Bucket>)
  {
    forall i, j :: 0 <= i < j < |buckets| ==> buckets[i].hour != buckets[j].hour
  }

  /** `hourly_power.setdefault(h, []).append(p)` on an insertion-ordered dict:
      an existing key keeps its place and gets `p` appended, a new key goes
      last with the one-element list `[p]`. */
  function AddPower(buckets: seq<Bucket>, h: int, p: real): (r: seq<Bucket>)
    requires DistinctHours(buckets)
    ensures DistinctHours(r)
    ensures |r| == if HasHour(buckets, h) then |buckets| else |buckets| + 1
    ensures forall i :: 0 <= i < |buckets| ==>
      r[i] == if buckets[i].hour == h then Bucket(h, buckets[i].powers + [p]) else buckets[i]
    ensures !HasHour(buckets, h) ==> r[|buckets|] == Bucket(h, [p])
  {
    if buckets == [] then [Bucket(h, [p])]
    else if buckets[0].hour == h then [Bucket(h, buckets[0].powers + [p])] + buckets[1..]
    else
      var rest := AddPower(buckets[1..], h, p);
      assert HasHour(buckets[1..], h) ==> HasHour(buckets, h);
      assert HasHour(buckets, h) ==> HasHour(buckets[1..], h) by {
        if HasHour(buckets, h) {
          var i :| 0 <= i < |buckets| && buckets[i].hour == h;
          assert buckets[1..][i - 1].hour == h;
        }
      }
      [buckets[0]] + rest
  }

  /** The dict `hourly_power` after the samples have been added in order. */
  function Group(samples: seq<Sample>): (g: seq<Bucket>)
    ensures DistinctHours(g)
    ensures |g| == 0 <==> samples == []
    ensures forall i :: 0 <= i < |g| ==> |g[i].powers| > 0
  {
    if samples == [] then []
    else
      var last := samples[|samples| - 1];
      AddPower(Group(samples[..|samples| - 1]), last.hour, last.power)
  }

  // Reference definitions over the samples themselves.

  predicate Occurs(samples: seq<Sample>, h: int)
  {
    exists k :: 0 <= k < |samples| && samples[k].hour == h
  }

  /** The powers of the samples in hour `h`, in order. */
  function PowersAt(samples: seq<Sample>, h: int): (ps: seq<real>)
    ensures |ps| > 0 <==> Occurs(samples, h)
  {
    if samples == [] then []
    else
      var init, last := samples[..|samples| - 1], samples[|samples| - 1];
      assert Occurs(init, h) ==> Occurs(samples, h) by {
        if Occurs(init, h) {
          var k :| 0 <= k < |init| && init[k].hour == h;
          assert samples[k].hour == h;
        }
      }
      PowersAt(init, h) + if last.hour == h then [last.power] else []
  }

  /** The position of the first sample in hour `h`. */
  function FirstIndex(samples: seq<Sample>, h: int): (k: nat)
    requires Occurs(samples, h)
    ensures k < |samples| && samples[k].hour == h
    ensures forall j :: 0 <= j < k ==> samples[j].hour != h
  {
    var init := samples[..|samples| - 1];
    if Occurs(init, h) then FirstIndex(init, h) else |samples| - 1
  }

  /** How `Occurs` and `FirstIndex` extend by one sample. */
  lemma OccursSnoc(samples: seq<Sample>, h: int)
    requires samples != []
    ensures Occurs(samples, h) <==>
      Occurs(samples[..|samples| - 1], h) || samples[|samples| - 1].hour == h
  {
    var init := samples[..|samples| - 1];
    if Occurs(samples, h) && samples[|samples| - 1].hour != h {
      var k :| 0 <= k < |samples| && samples[k].hour == h;
      assert init[k].hour == h;
    }
    if Occurs(init, h) {
      var k :| 0 <= k < |init| && init[k].hour == h;
      assert samples[k].hour == h;
    }
  }

  /** After `AddPower` the dict has the old keys and the added one. */
  lemma AddPowerHours(buckets: seq<Bucket>, h: int, p: real, x: int)
    requires DistinctHours(buckets)
    ensures HasHour(AddPower(buckets, h, p), x) <==> HasHour(buckets, x) || x == h
  {
    var r := AddPower(buckets, h, p);
    if HasHour(r, x) {
      var i :| 0 <= i < |r| && r[i].hour == x;
      if i < |buckets| {
        assert buckets[i].hour == x;
      }
    }
    if HasHour(buckets, x) {
      var i :| 0 <= i < |buckets| && buckets[i].hour == x;
      assert r[i].hour == x;
    }
    if x == h && !HasHour(buckets, h) {
      assert r[|buckets|].hour == x;
    }
  }

  /** There is a bucket for an hour exactly when some sample falls in it. */
  lemma {:induction false} GroupHours(samples: seq<Sample>)
    ensures forall h :: HasHour(Group(samples), h) <==> Occurs(samples, h)
  {
    if samples != [] {
      var init, last := samples[..|samples| - 1], samples[|samples| - 1];
      GroupHours(init);
      forall h ensures HasHour(Group(samples), h) <==> Occurs(samples, h) {
        OccursSnoc(samples, h);
        AddPowerHours(Group(init), last.hour, last.power, h);
      }
    }
  }

  /** Each bucket holds the powers of its hour's samples. */
  predicate PowersMatch(buckets: seq<Bucket>, samples: seq<Sample>)
  {
    forall i :: 0 <= i < |buckets| ==> buckets[i].powers == PowersAt(samples, buckets[i].hour)
  }

  /** Each bucket holds the powers of its hour's samples, in order. */
  lemma {:induction false} GroupPowers(samples: seq<Sample>)
    ensures PowersMatch(Group(samples), samples)
  {
    if samples != [] {
      var g := Group(samples);
      GroupPowers(samples[..|samples| - 1]);
      forall i | 0 <= i < |g| ensures g[i].powers == PowersAt(samples, g[i].hour) {
        GroupPowersAt(samples, i);
      }
    }
  }

  lemma GroupPowersAt(samples: seq<Sample>, i: nat)
    requires samples != []
    requires i < |Group(samples)|
    requires PowersMatch(Group(samples[..|samples| - 1]), samples[..|samples| - 1])
    ensures Group(samples)[i].powers == PowersAt(samples, Group(samples)[i].hour)
  {
    var init, last := samples[..|samples| - 1], samples[|samples| - 1];
    var g0, g := Group(init), Group(samples);
    var h := g[i].hour;
    assert PowersAt(samples, h) == PowersAt(init, h) + if last.hour == h then [last.power] else [];
    if i == |g0| {
      GroupHours(init);
      assert !Occurs(init, last.hour);
    } else {
      assert g0[i].powers == PowersAt(init, g0[i].hour);
    }
  }

  /** Buckets stand in the order in which their hours first appear. */
  predicate FirstAppearanceOrder(buckets: seq<Bucket>, samples: seq<Sample>)
  {
    forall i, j :: 0 <= i < j < |buckets| ==> FirstSeenBefore(buckets, samples, i, j)
  }

  /** Bucket `i`'s hour first appears before bucket `j`'s. */
  predicate FirstSeenBefore(buckets: seq<Bucket>, samples: seq<Sample>, i: nat, j: nat)
    requires i < |buckets| && j < |buckets|
  {
    && Occurs(samples, buckets[i].hour)
    && Occurs(samples, buckets[j].hour)
    && FirstIndex(samples, buckets[i].hour) < FirstIndex(samples, buckets[j].hour)
  }

  /** Buckets are ordered by the first appearance of their hour. */
  lemma {:induction false} GroupOrder(samples: seq<Sample>)
    ensures FirstAppearanceOrder(Group(samples), samples)
  {
    if samples != [] {
      GroupOrder(samples[..|samples| - 1]);
      forall i, j | 0 <= i < j < |Group(samples)|
        ensures FirstSeenBefore(Group(samples), samples, i, j)
      {
        GroupOrderAt(samples, i, j);
      }
    }
  }

  lemma GroupOrderAt(samples: seq<Sample>, i: nat, j: nat)
    requires samples != []
    requires i < j < |Group(samples)|
    requires FirstAppearanceOrder(Group(samples[..|samples| - 1]), samples[..|samples| - 1])
    ensures FirstSeenBefore(Group(samples), samples, i, j)
  {
    var init, last := samples[..|samples| - 1], samples[|samples| - 1];
    var g0, g := Group(init), Group(samples);
    GroupHours(init);
    assert g[i].hour == g0[i].hour;
    assert HasHour(g0, g0[i].hour);
    OccursSnoc(samples, g[i].hour);
    OccursSnoc(samples, g[j].hour);
    if j == |g0| {
      assert g[j].hour == last.hour;
      assert !Occurs(init, last.hour);
    } else {
      assert FirstSeenBefore(g0, init, i, j);
      assert g[j].hour == g0[j].hour;
      assert HasHour(g0, g0[j].hour);
    }
  }

  /** `max(xs)` by position, scanning left to right and replacing the current
      best only on a strictly greater value: the index of the first maximum. */
  function FirstMaxIndex(xs: seq<real>): (k: nat)
    requires |xs| > 0
    ensures k < |xs|
    ensures forall j :: 0 <= j < |xs| ==> xs[j] <= xs[k]
    ensures forall j :: 0 <= j < k ==> xs[j] < xs[k]
  {
    if |xs| == 1 then 0
    else
      var k := FirstMaxIndex(xs[..|xs| - 1]);
      if xs[|xs| - 1] > xs[k] then |xs| - 1 else k
  }

  /** `sum(item[1]) / len(item[1])` for every item of the dict. */
  function MeanPowers(buckets: seq<Bucket>): (ms: seq<real>)
    requires forall i :: 0 <= i < |buckets| ==> |buckets[i].powers| > 0
    ensures |ms| == |buckets|
  {
    seq(|buckets|, i requires 0 <= i < |buckets| => Mean(buckets[i].powers))
  }

  /** `peak_hour`: the hour of the first bucket with the highest mean power,
      or None for an empty dict. */
  function PeakHour(buckets: seq<Bucket>): Option<int>
    requires forall i :: 0 <= i < |buckets| ==> |buckets[i].powers| > 0
  {
    if buckets == [] then None
    else Some(buckets[FirstMaxIndex(MeanPowers(buckets))].hour)
  }

  /** The bucket of an hour that some sample falls in. */
  lemma BucketOf(samples: seq<Sample>, h: int) returns (i: nat)
    requires Occurs(samples, h)
    ensures i < |Group(samples)| && Group(samples)[i].hour == h
  {
    GroupHours(samples);
    assert HasHour(Group(samples), h);
    var k :| 0 <= k < |Group(samples)| && Group(samples)[k].hour == h;
    i := k;
  }

  /** Bucket `i`'s mean is the mean power of its hour's samples. */
  lemma BucketMean(samples: seq<Sample>, i: nat)
    requires i < |Group(samples)|
    ensures Occurs(samples, Group(samples)[i].hour)
    ensures MeanPowers(Group(samples))[i] == Mean(PowersAt(samples, Group(samples)[i].hour))
  {
    GroupPowers(samples);
    GroupHours(samples);
    assert HasHour(Group(samples), Group(samples)[i].hour);
  }

  /** The peak bucket beats bucket `h`: by at least as much, and strictly when
      `h` first appears earlier. */
  lemma PeakBeats(samples: seq<Sample>, k: nat, h: int)
    requires samples != []
    requires k == FirstMaxIndex(MeanPowers(Group(samples)))
    requires Occurs(samples, h)
    ensures Occurs(samples, Group(samples)[k].hour)
    ensures Mean(PowersAt(samples, h)) <= Mean(PowersAt(samples, Group(samples)[k].hour))
    ensures FirstIndex(samples, h) < FirstIndex(samples, Group(samples)[k].hour) ==>
      Mean(PowersAt(samples, h)) < Mean(PowersAt(samples, Group(samples)[k].hour))
  {
    var g := Group(samples);
    var ms := MeanPowers(g);
    var i := BucketOf(samples, h);
    BucketMean(samples, i);
    BucketMean(samples, k);
    assert ms[i] <= ms[k];
    assert i < k ==> ms[i] < ms[k];
    if i > k {
      GroupOrder(samples);
      assert FirstSeenBefore(g, samples, k, i);
    }
  }

  /** `peak` is the hour some sample falls in whose mean power is at least
      that of every other hour, and strictly greater than that of every hour
      that first appeared earlier: the first hour with the highest mean. */
  ghost predicate IsPeakHour(samples: seq<Sample>, peak: int)
  {
    && Occurs(samples, peak)
    && (forall h :: Occurs(samples, h) ==>
          Mean(PowersAt(samples, h)) <= Mean(PowersAt(samples, peak)))
    && (forall h :: Occurs(samples, h) && FirstIndex(samples, h) < FirstIndex(samples, peak) ==>
          Mean(PowersAt(samples, h)) < Mean(PowersAt(samples, peak)))
  }

  /** The peak hour over the samples: absent exactly when there are none,
      and otherwise the first hour with the highest mean power. */
  lemma PeakHourOfSamples(samples: seq<Sample>)
    ensures PeakHour(Group(samples)).None? <==> samples == []
    ensures PeakHour(Group(samples)).Some? ==> IsPeakHour(samples, PeakHour(Group(samples)).value)
  {
    if samples != [] {
      var g := Group(samples);
      var k := FirstMaxIndex(MeanPowers(g));
      var peak := g[k].hour;
      assert PeakHour(g) == Some(peak);
      BucketMean(samples, k);
      forall h | Occurs(samples, h)
        ensures Mean(PowersAt(samples, h)) <= Mean(PowersAt(samples, peak))
        ensures FirstIndex(samples, h) < FirstIndex(samples, peak) ==>
          Mean(PowersAt(samples, h)) < Mean(PowersAt(samples, peak))
      {
        PeakBeats(samples, k, h);
      }
    }
  }
}

/** The `hourly_power` loop of `calculate_metrics`, over the rows themselves. */
module HourlyLoop {
  import opened Wrappers
  import opened Records
  import opened Hourly

  /** Every row's power converts; `calculate_metrics` has already converted
      them all (`powers = [...]`) before the loop runs. */
  predicate PowersParse(data: seq<Row>)
  {
    forall i :: 0 <= i < |data| ==> Number(data[i], Power).Some?
  }

  /** The samples the loop adds, in order: one per row that has a `timestamp`
      key, or None when one of those timestamps does not parse (where
      `datetime.fromisoformat` raises). Rows without the key are skipped. */
  function Samples(data: seq<Row>): (r: Option<seq<Sample>>)
    requires PowersParse(data)
    ensures r.None? <==>
      exists i :: 0 <= i < |data| && Timestamp in data[i] && data[i][Timestamp].instant.None?
    ensures r.Some? ==> (r.value == [] <==> forall i :: 0 <= i < |data| ==> Timestamp !in data[i])
  {
    if data == [] then Some([])
    else
      var init, row := data[..|data| - 1], data[|data| - 1];
      assert forall i :: 0 <= i < |init| ==> init[i] == data[i];
      match Samples(init)
      case None => None
      case Some(s) =>
        if Timestamp !in row then Some(s)
        else
          match row[Timestamp].instant
          case None => None
          case Some(t) => Some(s + [Sample(HourOf(t), Number(row, Power).value)])
  }

  /** Lines building `hourly_power`: one pass over the rows, failing at the
      first timestamp that does not parse. */
  method GroupByHour(data: seq<Row>) returns (r: Option<seq<Bucket>>)
    requires PowersParse(data)
    ensures r.None? <==> Samples(data).None?
    ensures r.Some? ==> r.value == Group(Samples(data).value)
  {
    var hourly: seq<Bucket> := [];
    ghost var samples: seq<Sample> := [];
    var i := 0;
    while i < |data|
      invariant 0 <= i <= |data|
      invariant Samples(data[..i]) == Some(samples)
      invariant hourly == Group(samples)
    {
      assert data[..i + 1][..i] == data[..i];
      var row := data[i];
      if Timestamp in row {
        var stamp := row[Timestamp].instant;
        if stamp.None? {
          assert Timestamp in data[i] && data[i][Timestamp].instant.None?;
          return None;
        }
        var hour, p := HourOf(stamp.value), Number(row, Power).value;
        hourly := AddPower(hourly, hour, p);
        samples := samples + [Sample(hour, p)];
      }
      i := i + 1;
    }
    assert data[..i] == data;
    r := Some(hourly);
  }
}
