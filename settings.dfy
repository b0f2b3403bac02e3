/**
 The settings lists: the watchlist and the subreddit list are the contents of
 a settings file cut at every comma, as Python's `str.split(',')` does. A
 missing file reads as the empty string, which still gives one (empty) entry.
 */
module Settings {

  /** The pieces of `s` between commas, in order. */
  function SplitComma(s: string): (parts: seq<string>)
    ensures |parts| >= 1
    ensures forall i :: 0 <= i < |parts| ==> ',' !in parts[i]
  {
    if s == [] then [""]
    else
      var rest := SplitComma(s[1..]);
      if s[0] == ',' then [""] + rest
      else [[s[0]] + rest[0]] + rest[1..]
  }

  /** The pieces glued back with a comma between neighbours. */
  function JoinComma(parts: seq<string>): string
  {
    if parts == [] then ""
    else if |parts| == 1 then parts[0]
    else parts[0] + "," + JoinComma(parts[1..])
  }

  /** Joining the pieces gives back the file contents. */
  lemma {:induction false} JoinSplit(s: string)
    ensures JoinComma(SplitComma(s)) == s
  {
    if s != [] {
      JoinSplit(s[1..]);
      var rest := SplitComma(s[1..]);
      if s[0] != ',' {
        var parts := SplitComma(s);
        assert parts[1..] == rest[1..];
        if |rest| == 1 {
          assert JoinComma(parts) == [s[0]] + rest[0];
        } else {
          assert JoinComma(rest) == rest[0] + "," + JoinComma(rest[1..]);
          assert JoinComma(parts) == [s[0]] + rest[0] + "," + JoinComma(rest[1..]);
        }
        assert s == [s[0]] + s[1..];
      }
    }
  }

  /** A piece without commas splits into itself. */
  lemma {:induction false} SplitPiece(p: string)
    requires ',' !in p
    ensures SplitComma(p) == [p]
  {
    if p != [] {
      SplitPiece(p[1..]);
      assert [p[0]] + p[1..] == p;
    }
  }

  /** Splitting stops at the first comma. */
  lemma {:induction false} SplitAtComma(p: string, t: string)
    requires ',' !in p
    ensures SplitComma(p + "," + t) == [p] + SplitComma(t)
  {
    if p == [] {
      assert p + "," + t == [','] + t;
      assert (p + "," + t)[1..] == t;
    } else {
      SplitAtComma(p[1..], t);
      assert (p + "," + t)[1..] == p[1..] + "," + t;
      assert [p[0]] + p[1..] == p;
    }
  }

  /** Splitting a comma-joined list of comma-free pieces gives the pieces back. */
  lemma {:induction false} SplitJoin(parts: seq<string>)
    requires |parts| >= 1
    requires forall i :: 0 <= i < |parts| ==> ',' !in parts[i]
    ensures SplitComma(JoinComma(parts)) == parts
  {
    if |parts| == 1 {
      SplitPiece(parts[0]);
    } else {
      SplitJoin(parts[1..]);
      SplitAtComma(parts[0], JoinComma(parts[1..]));
      assert [parts[0]] + parts[1..] == parts;
    }
  }
}
