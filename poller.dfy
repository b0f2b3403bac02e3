/**
 The polling loop's state and one cycle of it: scrape the current subreddit,
 admit the new comments into the accumulated list, stop once enough are
 accumulated, otherwise move round-robin to the next subreddit. The report
 text is built from the accumulated list when the loop stops.
 */
module Poller {
  import opened Records
  import opened TermMatcher
  import opened Scraper
  import opened Dedup
  import opened Report
  import opened Settings

  /** The number of accumulated comments at which polling stops. */
  const DesiredEntries: nat := 10000

  /** The round-robin successor of source index `current` among `count` sources. */
  function NextSource(current: nat, count: nat): (next: nat)
    requires current < count
    ensures next < count
    ensures next == if current == count - 1 then 0 else current + 1
  {
    (current + 1) % count
  }

  /** The source index after `k` cycles that did not stop, starting from `start`. */
  function Advanced(start: nat, k: nat, count: nat): (i: nat)
    requires start < count
    ensures i < count
  {
    if k == 0 then start else NextSource(Advanced(start, k - 1, count), count)
  }

  lemma {:induction false} MulAtLeast(n: int, d: int)
    requires n > 0 && d >= 1
    ensures n * d >= n
    decreases d
  {
    if d > 1 {
      MulAtLeast(n, d - 1);
      assert n * d == n * (d - 1) + n;
    }
  }

  /** The remainder of `a` by `n` is the `r` of any decomposition `a == n * q + r` with `0 <= r < n`. */
  lemma ModUnique(a: int, n: int, q: int, r: int)
    requires n > 0 && 0 <= r < n && a == n * q + r
    ensures a % n == r
  {
    var q', r' := a / n, a % n;
    assert a == n * q' + r';
    var d := q' - q;
    assert n * d == r - r';
    if d >= 1 {
      MulAtLeast(n, d);
    } else if d <= -1 {
      MulAtLeast(n, -d);
    }
  }

  lemma ModSucc(x: nat, n: nat)
    requires n > 0
    ensures (x % n + 1) % n == (x + 1) % n
  {
    var q, r := x / n, x % n;
    assert x == n * q + r;
    if r + 1 < n {
      ModUnique(x + 1, n, q, r + 1);
      ModUnique(r + 1, n, 0, r + 1);
    } else {
      ModUnique(x + 1, n, q + 1, 0);
      assert n * (q + 1) == n * q + n;
      ModUnique(r + 1, n, 1, 0);
    }
  }

  /** After `k` cycles that did not stop, the index is `start + k` taken modulo the number of sources. */
  lemma {:induction false} AdvancedMod(start: nat, k: nat, count: nat)
    requires start < count
    ensures Advanced(start, k, count) == (start + k) % count
  {
    if k == 0 {
      ModUnique(start, count, 0, start);
    } else {
      AdvancedMod(start, k - 1, count);
      ModSucc(start + k - 1, count);
    }
  }

  /** Every subreddit is scraped within any `count` consecutive cycles. */
  lemma RoundRobinVisitsAll(start: nat, count: nat, target: nat)
    requires start < count && target < count
    ensures exists k :: 0 <= k < count && Advanced(start, k, count) == target
  {
    var k := if start <= target then target - start else target + count - start;
    AdvancedMod(start, k, count);
    if start <= target {
      ModUnique(start + k, count, 0, target);
    } else {
      ModUnique(start + k, count, 1, target);
    }
  }

  /** After `count` cycles the index is back where it started. */
  lemma RoundRobinPeriod(start: nat, count: nat)
    requires start < count
    ensures Advanced(start, count, count) == start
  {
    AdvancedMod(start, count, count);
    ModUnique(start + count, count, 1, start);
  }

  /** The loop state: the settings lists, the current source index and the accumulated comments. */
  class Poller {
    const terms: seq<string>
    const subreddits: seq<string>
    var current: nat
    var flagged: seq<Comment>

    /** The source index is in range and no two accumulated comments share a url. */
    ghost predicate Valid()
      reads this
    {
      current < |subreddits| && DistinctUrls(flagged)
    }

    /** Start-up: the lists are the comma-split settings files, nothing is accumulated yet. */
    constructor (termFile: string, subredditFile: string)
      ensures Valid()
      ensures terms == SplitComma(termFile) && subreddits == SplitComma(subredditFile)
      ensures current == 0 && flagged == []
    {
      terms := SplitComma(termFile);
      subreddits := SplitComma(subredditFile);
      current := 0;
      flagged := [];
    }

    /** The inner scan of the dedup loop: does some accumulated comment have url `url`? */
    method Seen(url: string) returns (found: bool)
      ensures found <==> HasUrl(flagged, url)
    {
      found := false;
      for i := 0 to |flagged|
        invariant found <==> exists j :: 0 <= j < i && flagged[j].url == url
      {
        if url == flagged[i].url {
          found := true;
        }
      }
    }

    /**
     The dedup loop: each comment of `batch` is appended unless a comment
     already accumulated, including one appended earlier from this batch,
     has its url.
     */
    method Admit(batch: seq<Comment>)
      requires Valid()
      modifies this`flagged
      ensures Valid()
      ensures flagged == DedupAppend(old(flagged), batch)
    {
      for i := 0 to |batch|
        invariant flagged == DedupAppend(old(flagged), batch[..i])
      {
        var n := batch[i];
        var found := Seen(n.url);
        if !found {
          flagged := flagged + [n];
        }
        assert batch[..i + 1][..i] == batch[..i];
      }
      assert batch[..|batch|] == batch;
      DedupAppendDistinct(old(flagged), batch);
    }

    /** The exit check and the move to the next subreddit. */
    method Advance() returns (stop: bool)
      requires Valid()
      modifies this`current
      ensures Valid()
      ensures stop <==> |flagged| >= DesiredEntries
      ensures current == if stop then old(current) else NextSource(old(current), |subreddits|)
    {
      stop := |flagged| >= DesiredEntries;
      if !stop {
        current := (current + 1) % |subreddits|;
      }
    }

    /**
     One polling cycle. `fetch` stands for the network: the submissions
     (with their replies) fetched for a subreddit name.
     */
    method Cycle(fetch: string -> seq<Submission>, tokenize: string -> seq<string>) returns (stop: bool)
      requires Valid()
      modifies this
      ensures Valid()
      ensures flagged == DedupAppend(old(flagged), Scraped(terms, tokenize, fetch(subreddits[old(current)])))
      ensures stop <==> |flagged| >= DesiredEntries
      ensures current == if stop then old(current) else NextSource(old(current), |subreddits|)
    {
      var name := subreddits[current];
      var batch := Scrape(terms, tokenize, fetch(name));
      Admit(batch);
      stop := Advance();
    }

    /** The report text: the banner, then one block per accumulated comment. */
    method BuildReport() returns (out: string)
      ensures out == ReportText(flagged)
    {
      out := "";
      out := out + Line(Rule);
      out := out + Line(Title);
      out := out + Line(Rule);
      assert out == Header;
      for i := 0 to |flagged|
        invariant out == Header + Blocks(flagged[..i])
      {
        var n := flagged[i];
        AppendBlock(out, n);
        out := out + Line("Author: /u/" + n.author);
        out := out + Line("Text: " + n.body);
        out := out + Line("Subreddit: /r/" + n.subreddit);
        out := out + Line("URL:" + n.url);
        out := out + Line(Rule);
        assert flagged[..i + 1] == flagged[..i] + [n];
        ConcatAppend(flagged[..i], [n], Block);
        Associative(Header, Blocks(flagged[..i]), Block(n));
      }
      assert flagged[..|flagged|] == flagged;
    }
  }
}
