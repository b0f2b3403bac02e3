/**
 The term matcher of the poller: a comment's lowercased tokens are scanned
 and every token that is an exact member of the watchlist is kept, in token
 order and with duplicates. A comment is flagged when anything was kept.
 */
module TermMatcher {

  /** The tokens of `tokens` that occur in `terms`, in order, duplicates kept. */
  function MatchedTerms(tokens: seq<string>, terms: seq<string>): seq<string>
  {
    if tokens == [] then []
    else
      var last := tokens[|tokens| - 1];
      MatchedTerms(tokens[..|tokens| - 1], terms) + (if last in terms then [last] else [])
  }

  /** A comment is flagged when at least one of its tokens is a watched term. */
  predicate Flagged(tokens: seq<string>, terms: seq<string>)
  {
    |MatchedTerms(tokens, terms)| > 0
  }

  /** The token loop of the scraper: appends each watched token to the found list. */
  method FindTerms(tokens: seq<string>, terms: seq<string>) returns (found: seq<string>)
    ensures found == MatchedTerms(tokens, terms)
  {
    found := [];
    for i := 0 to |tokens|
      invariant found == MatchedTerms(tokens[..i], terms)
    {
      assert tokens[..i + 1][..i] == tokens[..i];
      if tokens[i] in terms {
        found := found + [tokens[i]];
      }
    }
    assert tokens[..|tokens|] == tokens;
  }

  /** Matching distributes over concatenation, so the kept tokens keep their order. */
  lemma {:induction false} MatchedTermsAppend(a: seq<string>, b: seq<string>, terms: seq<string>)
    ensures MatchedTerms(a + b, terms) == MatchedTerms(a, terms) + MatchedTerms(b, terms)
    decreases |b|
  {
    if b == [] {
      assert a + b == a;
    } else {
      var b' := b[..|b| - 1];
      assert (a + b)[..|a + b| - 1] == a + b';
      MatchedTermsAppend(a, b', terms);
    }
  }

  /** Every kept token is a watched term and occurs among the tokens. */
  lemma {:induction false} MatchedTermsSound(tokens: seq<string>, terms: seq<string>)
    ensures forall t :: t in MatchedTerms(tokens, terms) ==> t in terms && t in tokens
  {
    if tokens != [] {
      var front := tokens[..|tokens| - 1];
      MatchedTermsSound(front, terms);
      forall t | t in front ensures t in tokens {
        var i :| 0 <= i < |front| && front[i] == t;
        assert tokens[i] == t;
      }
    }
  }

  /**
   Exactly the watched tokens are kept, each as often as it occurs: a watched
   token keeps its multiplicity, an unwatched one disappears.
   */
  lemma {:induction false} MatchedTermsCount(tokens: seq<string>, terms: seq<string>, t: string)
    ensures multiset(MatchedTerms(tokens, terms))[t] == if t in terms then multiset(tokens)[t] else 0
  {
    if tokens != [] {
      var front := tokens[..|tokens| - 1];
      MatchedTermsCount(front, terms, t);
      assert tokens == front + [tokens[|tokens| - 1]];
    }
  }

  /** A comment is flagged iff some token is an exact member of the watchlist. */
  lemma {:induction false} FlaggedIff(tokens: seq<string>, terms: seq<string>)
    ensures Flagged(tokens, terms) <==> exists i :: 0 <= i < |tokens| && tokens[i] in terms
  {
    if tokens != [] {
      var front := tokens[..|tokens| - 1];
      FlaggedIff(front, terms);
      if exists i :: 0 <= i < |front| && front[i] in terms {
        var i :| 0 <= i < |front| && front[i] in terms;
        assert tokens[i] in terms;
      }
      if exists i :: 0 <= i < |tokens| && tokens[i] in terms {
        var i :| 0 <= i < |tokens| && tokens[i] in terms;
        if i < |front| {
          assert front[i] in terms;
        }
      }
    }
  }

  /**
   Order and repetition do not matter to the flagging decision: a comment is
   flagged iff its token set meets the watchlist's term set.
   */
  lemma FlaggedIffIntersects(tokens: seq<string>, terms: seq<string>)
    ensures Flagged(tokens, terms) <==> (set t | t in tokens) * (set t | t in terms) != {}
  {
    FlaggedIff(tokens, terms);
    if Flagged(tokens, terms) {
      var i :| 0 <= i < |tokens| && tokens[i] in terms;
      assert tokens[i] in (set t | t in tokens) * (set t | t in terms);
    }
  }
}
