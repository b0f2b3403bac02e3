/**
 The dedup accumulator: a batch of newly scraped comments is appended to the
 accumulated list, skipping every comment whose url some comment already in
 the list has. The list is scanned as it grows, so a url repeated inside one
 batch is also kept only once: the first writer wins.
 */
module Dedup {
  import opened Records

  /** Some comment of `items` has url `url`. */
  predicate HasUrl(items: seq<Comment>, url: string)
  {
    exists i :: 0 <= i < |items| && items[i].url == url
  }

  /** No two comments of `items` share a url. */
  predicate DistinctUrls(items: seq<Comment>)
  {
    forall i, j :: 0 <= i < j < |items| ==> items[i].url != items[j].url
  }

  /** The accumulated list after the comments of `batch` are offered one by one. */
  function DedupAppend(acc: seq<Comment>, batch: seq<Comment>): (r: seq<Comment>)
    ensures forall i :: |acc| <= i < |r| ==> r[i] in batch
  {
    if batch == [] then acc
    else
      var prev := DedupAppend(acc, batch[..|batch| - 1]);
      var n := batch[|batch| - 1];
      if HasUrl(prev, n.url) then prev else prev + [n]
  }

  /**
   `batch[i]` carries a url that `acc` does not hold and that no earlier
   comment of the batch carries.
   */
  predicate FirstUnseen(acc: seq<Comment>, batch: seq<Comment>, i: int)
  {
    0 <= i < |batch| && !HasUrl(acc, batch[i].url) && forall j :: 0 <= j < i ==> batch[j].url != batch[i].url
  }

  /** The comments of `batch` that are first occurrences of urls `acc` does not hold, in batch order. */
  function NewArrivals(acc: seq<Comment>, batch: seq<Comment>): seq<Comment>
  {
    if batch == [] then []
    else
      NewArrivals(acc, batch[..|batch| - 1])
        + (if FirstUnseen(acc, batch, |batch| - 1) then [batch[|batch| - 1]] else [])
  }

  /** The arrivals hold a url iff the accumulated list lacks it and the batch carries it. */
  lemma {:induction false} NewArrivalsUrls(acc: seq<Comment>, batch: seq<Comment>, url: string)
    ensures HasUrl(NewArrivals(acc, batch), url) <==>
      !HasUrl(acc, url) && exists j :: 0 <= j < |batch| && batch[j].url == url
  {
    if batch != [] {
      var front := batch[..|batch| - 1];
      var last := batch[|batch| - 1];
      NewArrivalsUrls(acc, front, url);
      var fa := NewArrivals(acc, front);
      var tail := if FirstUnseen(acc, batch, |batch| - 1) then [last] else [];
      assert NewArrivals(acc, batch) == fa + tail;
      if HasUrl(fa + tail, url) {
        var i :| 0 <= i < |fa + tail| && (fa + tail)[i].url == url;
        if i < |fa| {
          assert fa[i].url == url;
          var j :| 0 <= j < |front| && front[j].url == url;
          assert batch[j].url == url;
        } else {
          assert batch[|batch| - 1].url == url;
        }
      }
      if !HasUrl(acc, url) && exists j :: 0 <= j < |batch| && batch[j].url == url {
        var j :| 0 <= j < |batch| && batch[j].url == url;
        if j < |front| {
          assert front[j].url == url;
          var i :| 0 <= i < |fa| && fa[i].url == url;
          assert (fa + tail)[i].url == url;
        } else if exists k :: 0 <= k < |front| && front[k].url == url {
          var k :| 0 <= k < |front| && front[k].url == url;
          var i :| 0 <= i < |fa| && fa[i].url == url;
          assert (fa + tail)[i].url == url;
        } else {
          forall k | 0 <= k < |batch| - 1 ensures batch[k].url != batch[|batch| - 1].url {
            assert front[k] == batch[k];
          }
          assert (fa + tail)[|fa|].url == url;
        }
      }
    }
  }

  /** A concatenation holds a url iff one of its parts does. */
  lemma HasUrlConcat(a: seq<Comment>, b: seq<Comment>, url: string)
    ensures HasUrl(a + b, url) <==> HasUrl(a, url) || HasUrl(b, url)
  {
    if HasUrl(a + b, url) {
      var i :| 0 <= i < |a + b| && (a + b)[i].url == url;
      if i < |a| { assert a[i].url == url; } else { assert b[i - |a|].url == url; }
    }
    if HasUrl(a, url) {
      var i :| 0 <= i < |a| && a[i].url == url;
      assert (a + b)[i].url == url;
    }
    if HasUrl(b, url) {
      var i :| 0 <= i < |b| && b[i].url == url;
      assert (a + b)[|a| + i].url == url;
    }
  }

  /**
   Offering a batch appends exactly the first occurrences of the urls the
   list does not hold yet, in batch order, and changes nothing before them.
   */
  lemma {:induction false} DedupAppendIsFirstSeen(acc: seq<Comment>, batch: seq<Comment>)
    ensures DedupAppend(acc, batch) == acc + NewArrivals(acc, batch)
  {
    if batch == [] {
      assert acc + [] == acc;
    } else {
      var front := batch[..|batch| - 1];
      var n := batch[|batch| - 1];
      DedupAppendIsFirstSeen(acc, front);
      var fa := NewArrivals(acc, front);
      HasUrlConcat(acc, fa, n.url);
      NewArrivalsUrls(acc, front, n.url);
      assert (forall j :: 0 <= j < |batch| - 1 ==> batch[j].url != n.url) <==>
             !(exists j :: 0 <= j < |front| && front[j].url == n.url) by {
        forall j | 0 <= j < |front| ensures front[j] == batch[j] { }
      }
      assert HasUrl(acc + fa, n.url) <==> !FirstUnseen(acc, batch, |batch| - 1);
      assert NewArrivals(acc, batch) == fa + if FirstUnseen(acc, batch, |batch| - 1) then [n] else [];
      assert DedupAppend(acc, batch) == if HasUrl(acc + fa, n.url) then acc + fa else acc + fa + [n];
    }
  }

  /** A batch appends at most one comment per comment offered. */
  lemma {:induction false} DedupAppendGrowth(acc: seq<Comment>, batch: seq<Comment>)
    ensures |acc| <= |DedupAppend(acc, batch)| <= |acc| + |batch|
    ensures DedupAppend(acc, batch)[..|acc|] == acc
  {
    if batch != [] {
      DedupAppendGrowth(acc, batch[..|batch| - 1]);
    }
  }

  /** Distinct urls stay distinct. */
  lemma {:induction false} DedupAppendDistinct(acc: seq<Comment>, batch: seq<Comment>)
    requires DistinctUrls(acc)
    ensures DistinctUrls(DedupAppend(acc, batch))
  {
    if batch != [] {
      var prev := DedupAppend(acc, batch[..|batch| - 1]);
      var n := batch[|batch| - 1];
      DedupAppendDistinct(acc, batch[..|batch| - 1]);
      if !HasUrl(prev, n.url) {
        var next := prev + [n];
        forall i, j | 0 <= i < j < |next| ensures next[i].url != next[j].url {
          if j == |prev| {
            assert prev[i].url != n.url;
          }
        }
      }
    }
  }

  /** After a batch, the list holds every url the batch carried. */
  lemma {:induction false} DedupAppendCovers(acc: seq<Comment>, batch: seq<Comment>, url: string)
    ensures HasUrl(DedupAppend(acc, batch), url) <==>
      HasUrl(acc, url) || exists j :: 0 <= j < |batch| && batch[j].url == url
  {
    DedupAppendIsFirstSeen(acc, batch);
    NewArrivalsUrls(acc, batch, url);
    var na := NewArrivals(acc, batch);
    if HasUrl(acc + na, url) {
      var i :| 0 <= i < |acc + na| && (acc + na)[i].url == url;
      if i < |acc| { assert acc[i].url == url; } else { assert na[i - |acc|].url == url; }
    }
    if HasUrl(acc, url) {
      var i :| 0 <= i < |acc| && acc[i].url == url;
      assert (acc + na)[i].url == url;
    } else if HasUrl(na, url) {
      var i :| 0 <= i < |na| && na[i].url == url;
      assert (acc + na)[|acc| + i].url == url;
    }
  }

  /** A batch whose urls the list already holds appends nothing. */
  lemma {:induction false} DedupAppendAllSeen(acc: seq<Comment>, batch: seq<Comment>)
    requires forall j :: 0 <= j < |batch| ==> HasUrl(acc, batch[j].url)
    ensures DedupAppend(acc, batch) == acc
  {
    if batch != [] {
      DedupAppendAllSeen(acc, batch[..|batch| - 1]);
    }
  }

  /** Offering the same batch a second time appends nothing. */
  lemma DedupAppendIdempotent(acc: seq<Comment>, batch: seq<Comment>)
    ensures DedupAppend(DedupAppend(acc, batch), batch) == DedupAppend(acc, batch)
  {
    var once := DedupAppend(acc, batch);
    forall j | 0 <= j < |batch| ensures HasUrl(once, batch[j].url) {
      DedupAppendCovers(acc, batch, batch[j].url);
    }
    DedupAppendAllSeen(once, batch);
  }

  /**
   Offering two batches in successive cycles is offering their concatenation
   once: the list is in first-seen order however the comments were split
   into cycles.
   */
  lemma {:induction false} DedupAppendCycles(acc: seq<Comment>, b1: seq<Comment>, b2: seq<Comment>)
    ensures DedupAppend(DedupAppend(acc, b1), b2) == DedupAppend(acc, b1 + b2)
  {
    if b2 == [] {
      assert b1 + b2 == b1;
    } else {
      DedupAppendCycles(acc, b1, b2[..|b2| - 1]);
      assert (b1 + b2)[..|b1 + b2| - 1] == b1 + b2[..|b2| - 1];
    }
  }
}
