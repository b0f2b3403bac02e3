/**
 The scraper: for each fetched submission of one subreddit, every reply whose
 tokens meet the watchlist becomes a flagged Comment record, with its parent
 looked up among the replies of the same submission.
 The network is left out: the submissions are an input, and `tokenize`
 stands for the external tokenizer applied to the lowercased body.
 */
module Scraper {
  import opened Records
  import opened TermMatcher

  /**
   The id a parent reference points at: the reference without its
   three-character kind prefix. Like a Python slice `s[3:]`, it is the empty
   string when the reference is shorter than three characters.
   */
  function ParentKey(parentId: string): (key: string)
    ensures |parentId| >= 3 ==> parentId == parentId[..3] + key
    ensures |parentId| < 3 ==> key == ""
  {
    if |parentId| >= 3 then parentId[3..] else ""
  }

  /** `all[i]` is the first reply of `all` whose id is `key`. */
  ghost predicate FirstWithIdAt(all: seq<Fetched>, key: string, i: int)
  {
    0 <= i < |all| && all[i].id == key && forall j :: 0 <= j < i ==> all[j].id != key
  }

  /**
   The parent lookup: the head of the list of fetched replies whose id
   equals `key`, or None when that list is empty.
   */
  function FirstWithId(all: seq<Fetched>, key: string): (r: Option<Fetched>)
    ensures r.None? <==> forall i :: 0 <= i < |all| ==> all[i].id != key
    ensures r.Some? ==> exists i :: FirstWithIdAt(all, key, i) && all[i] == r.value
  {
    if all == [] then None
    else if all[0].id == key then
      assert FirstWithIdAt(all, key, 0);
      Some(all[0])
    else
      var r := FirstWithId(all[1..], key);
      assert r.None? ==> forall i :: 0 <= i < |all| ==> all[i].id != key by {
        if r.None? {
          forall i | 0 < i < |all| ensures all[i].id != key {
            assert all[1..][i - 1] == all[i];
          }
        }
      }
      assert r.Some? ==> exists i :: FirstWithIdAt(all, key, i) && all[i] == r.value by {
        if r.Some? {
          var i :| FirstWithIdAt(all[1..], key, i) && all[1..][i] == r.value;
          assert FirstWithIdAt(all, key, i + 1);
        }
      }
      r
  }

  /**
   The flagged record for reply `c` of a submission of `subreddit` whose
   replies are `all`. Author and parent fields start at their defaults; the
   author is filled in when present, and the parent fields are copied from
   the first reply of `all` whose id is the parent key.
   */
  function MakeComment(c: Fetched, subreddit: string, all: seq<Fetched>): (r: Comment)
    ensures r.id == c.id && r.body == c.body && r.subreddit == subreddit && r.url == c.permalink
    ensures c.author.None? ==> r.author == ""
    ensures c.author.Some? ==> r.author == c.author.value
    ensures r.parentId.None? ==> r.parentAuthor == "" && r.parentBody == "" && r.parentUrl == ""
  {
    var parent := FirstWithId(all, ParentKey(c.parentId));
    match parent
    case None =>
      Comment(c.id, AuthorName(c.author), c.body, subreddit, c.permalink, None, "", "", "")
    case Some(p) =>
      Comment(c.id, AuthorName(c.author), c.body, subreddit, c.permalink,
              Some(p.id), AuthorName(p.author), p.body, p.permalink)
  }

  /**
   The parent of a record is resolved exactly when some fetched reply of the
   same submission has the parent key as id, and then the parent fields are
   those of the first such reply; a resolved parent id is never the default.
   */
  lemma MakeCommentParent(c: Fetched, subreddit: string, all: seq<Fetched>)
    ensures MakeComment(c, subreddit, all).parentId.Some? <==>
      exists i :: 0 <= i < |all| && all[i].id == ParentKey(c.parentId)
    ensures var r := MakeComment(c, subreddit, all);
      r.parentId.Some? ==>
        exists i :: FirstWithIdAt(all, ParentKey(c.parentId), i)
          && r.parentId == Some(all[i].id) && r.parentAuthor == AuthorName(all[i].author)
          && r.parentBody == all[i].body && r.parentUrl == all[i].permalink
  {
    var key := ParentKey(c.parentId);
    var found := FirstWithId(all, key);
    if found.Some? {
      var i :| FirstWithIdAt(all, key, i) && all[i] == found.value;
      assert MakeComment(c, subreddit, all).parentId == Some(all[i].id);
    }
  }

  /** The records for the flagged replies among `cs`, in order. */
  function ScanComments(terms: seq<string>, tokenize: string -> seq<string>, subreddit: string,
                        cs: seq<Fetched>, all: seq<Fetched>): (r: seq<Comment>)
    ensures forall i :: 0 <= i < |r| ==> r[i].subreddit == subreddit
  {
    if cs == [] then []
    else
      var c := cs[|cs| - 1];
      ScanComments(terms, tokenize, subreddit, cs[..|cs| - 1], all)
        + (if Flagged(tokenize(c.body), terms) then [MakeComment(c, subreddit, all)] else [])
  }

  /** The records one scrape returns for the submissions `subs`, submission by submission. */
  function Scraped(terms: seq<string>, tokenize: string -> seq<string>, subs: seq<Submission>): seq<Comment>
  {
    if subs == [] then []
    else
      var s := subs[|subs| - 1];
      Scraped(terms, tokenize, subs[..|subs| - 1]) + ScanComments(terms, tokenize, s.subreddit, s.comments, s.comments)
  }

  /** The scrape of one subreddit: nested loops over submissions and their replies. */
  method Scrape(terms: seq<string>, tokenize: string -> seq<string>, subs: seq<Submission>)
    returns (comments: seq<Comment>)
    ensures comments == Scraped(terms, tokenize, subs)
  {
    comments := [];
    for s := 0 to |subs|
      invariant comments == Scraped(terms, tokenize, subs[..s])
    {
      var sub := subs[s];
      var all := sub.comments;
      ghost var before := comments;
      for k := 0 to |all|
        invariant comments == before + ScanComments(terms, tokenize, sub.subreddit, all[..k], all)
      {
        var c := all[k];
        var found := FindTerms(tokenize(c.body), terms);
        assert all[..k + 1][..k] == all[..k];
        ghost var prev := ScanComments(terms, tokenize, sub.subreddit, all[..k], all);
        assert ScanComments(terms, tokenize, sub.subreddit, all[..k + 1], all)
          == prev + if Flagged(tokenize(c.body), terms) then [MakeComment(c, sub.subreddit, all)] else [];
        if |found| > 0 {
          comments := comments + [MakeComment(c, sub.subreddit, all)];
        }
      }
      assert all[..|all|] == all;
      assert subs[..s + 1][..s] == subs[..s];
      assert Scraped(terms, tokenize, subs[..s + 1])
        == Scraped(terms, tokenize, subs[..s]) + ScanComments(terms, tokenize, sub.subreddit, all, all);
    }
    assert subs[..|subs|] == subs;
  }

  /** `r` is the record of the flagged reply `cs[k]`. */
  ghost predicate RecordOf(terms: seq<string>, tokenize: string -> seq<string>, subreddit: string,
                           cs: seq<Fetched>, all: seq<Fetched>, k: int, r: Comment)
  {
    0 <= k < |cs| && Flagged(tokenize(cs[k].body), terms) && r == MakeComment(cs[k], subreddit, all)
  }

  /**
   A record is produced for a reply list exactly when it is the record of a
   flagged reply of that list.
   */
  lemma {:induction false} ScanCommentsMembers(terms: seq<string>, tokenize: string -> seq<string>, subreddit: string,
                                               cs: seq<Fetched>, all: seq<Fetched>, r: Comment)
    ensures r in ScanComments(terms, tokenize, subreddit, cs, all) <==>
      exists k :: RecordOf(terms, tokenize, subreddit, cs, all, k, r)
  {
    if cs != [] {
      var front := cs[..|cs| - 1];
      var c := cs[|cs| - 1];
      var prev := ScanComments(terms, tokenize, subreddit, front, all);
      var tail := if Flagged(tokenize(c.body), terms) then [MakeComment(c, subreddit, all)] else [];
      assert ScanComments(terms, tokenize, subreddit, cs, all) == prev + tail;
      ScanCommentsMembers(terms, tokenize, subreddit, front, all, r);
      forall k | 0 <= k < |front|
        ensures RecordOf(terms, tokenize, subreddit, front, all, k, r) <==> RecordOf(terms, tokenize, subreddit, cs, all, k, r)
      {
        assert front[k] == cs[k];
      }
      assert r in tail <==> RecordOf(terms, tokenize, subreddit, cs, all, |cs| - 1, r);
    }
  }

  /** A scrape yields at most one record per fetched reply. */
  lemma {:induction false} ScanCommentsLength(terms: seq<string>, tokenize: string -> seq<string>, subreddit: string,
                                              cs: seq<Fetched>, all: seq<Fetched>)
    ensures |ScanComments(terms, tokenize, subreddit, cs, all)| <= |cs|
  {
    if cs != [] {
      ScanCommentsLength(terms, tokenize, subreddit, cs[..|cs| - 1], all);
    }
  }

  /** `r` is among the records produced for the replies of submission `subs[s]`. */
  ghost predicate ScannedIn(terms: seq<string>, tokenize: string -> seq<string>, subs: seq<Submission>, s: int, r: Comment)
  {
    0 <= s < |subs| && r in ScanComments(terms, tokenize, subs[s].subreddit, subs[s].comments, subs[s].comments)
  }

  /**
   A scrape's records are exactly those produced for the reply lists of the
   fetched submissions, each with the subreddit of its own submission.
   */
  lemma {:induction false} ScrapedMembers(terms: seq<string>, tokenize: string -> seq<string>, subs: seq<Submission>, r: Comment)
    ensures r in Scraped(terms, tokenize, subs) <==> exists s :: ScannedIn(terms, tokenize, subs, s, r)
  {
    if subs != [] {
      var front := subs[..|subs| - 1];
      var last := subs[|subs| - 1];
      var prev := Scraped(terms, tokenize, front);
      var tail := ScanComments(terms, tokenize, last.subreddit, last.comments, last.comments);
      assert Scraped(terms, tokenize, subs) == prev + tail;
      ScrapedMembers(terms, tokenize, front, r);
      forall s | 0 <= s < |front|
        ensures ScannedIn(terms, tokenize, front, s, r) <==> ScannedIn(terms, tokenize, subs, s, r)
      {
        assert front[s] == subs[s];
      }
      assert r in tail <==> ScannedIn(terms, tokenize, subs, |subs| - 1, r);
    }
  }
}
