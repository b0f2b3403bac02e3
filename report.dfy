/**
 The flat-text report written when the poller stops: a three-line banner,
 then one five-line block per accumulated comment, in accumulation order.
 */
module Report {
  import opened Records

  /** Ten hash signs. */
  const Hashes: string := "##########"

  /** The rule line: 62 hash signs. */
  const Rule: string := Hashes + Hashes + Hashes + Hashes + Hashes + Hashes + "##"

  /** Ten blanks. */
  const Blanks: string := "          "

  /** The banner title, 62 characters framed by hash signs. */
  const Title: string := "# Comments" + Blanks + Blanks + Blanks + Blanks + Blanks + " #"

  /** The rule and the title are 62 characters wide and hold no line break. */
  lemma BannerShape()
    ensures |Rule| == 62 && |Title| == 62
    ensures '\n' !in Rule && '\n' !in Title
    ensures forall i :: 0 <= i < |Rule| ==> Rule[i] == '#'
    ensures Title[0] == '#' && Title[61] == '#'
  {
    assert Hashes == ['#', '#', '#', '#', '#', '#', '#', '#', '#', '#'];
    assert Blanks == [' ', ' ', ' ', ' ', ' ', ' ', ' ', ' ', ' ', ' '];
    assert "# Comments" == ['#', ' ', 'C', 'o', 'm', 'm', 'e', 'n', 't', 's'];
  }

  /** A line of text with its line break. */
  function Line(s: string): string
  {
    s + "\n"
  }

  /** The banner that opens the report. */
  const Header: string := Line(Rule) + Line(Title) + Line(Rule)

  /** The block for one comment, closed by the rule line. */
  function Block(n: Comment): (r: string)
    ensures |r| > |Line(Rule)| && r[|r| - |Line(Rule)|..] == Line(Rule)
  {
    Line("Author: /u/" + n.author)
    + Line("Text: " + n.body)
    + Line("Subreddit: /r/" + n.subreddit)
    + Line("URL:" + n.url)
    + Line(Rule)
  }

  /** The renderings of `items`, in order. */
  function Concat<T>(items: seq<T>, render: T -> string): string
  {
    if items == [] then "" else Concat(items[..|items| - 1], render) + render(items[|items| - 1])
  }

  /** The blocks of `items`, in order. */
  function Blocks(items: seq<Comment>): string
  {
    Concat(items, Block)
  }

  /** The whole report for the accumulated comments `items`. */
  function ReportText(items: seq<Comment>): (r: string)
    ensures Header <= r
  {
    Header + Blocks(items)
  }

  /** The number of line breaks in `s`. */
  function Lines(s: string): nat
  {
    if s == [] then 0 else Lines(s[..|s| - 1]) + (if s[|s| - 1] == '\n' then 1 else 0)
  }

  /** Rendering a concatenation renders its parts one after the other. */
  lemma {:induction false} ConcatAppend<T>(a: seq<T>, b: seq<T>, render: T -> string)
    ensures Concat(a + b, render) == Concat(a, render) + Concat(b, render)
    decreases |b|
  {
    if b == [] {
      assert a + b == a;
    } else {
      var front, last := b[..|b| - 1], b[|b| - 1];
      ConcatAppend(a, front, render);
      assert (a + b)[..|a + b| - 1] == a + front;
      assert (a + b)[|a + b| - 1] == last;
      assert Concat(a + b, render) == Concat(a + front, render) + render(last);
      assert Concat(b, render) == Concat(front, render) + render(last);
      Associative(Concat(a, render), Concat(front, render), render(last));
    }
  }

  /** The report of `a + b` is the report of `a` followed by the blocks of `b`. */
  lemma ReportIncremental(a: seq<Comment>, b: seq<Comment>)
    ensures ReportText(a + b) == ReportText(a) + Blocks(b)
  {
    ConcatAppend(a, b, Block);
    Associative(Header, Blocks(a), Blocks(b));
  }

  lemma {:induction false} LinesAppend(s: string, t: string)
    ensures Lines(s + t) == Lines(s) + Lines(t)
    decreases |t|
  {
    if t == [] {
      assert s + t == s;
    } else {
      LinesAppend(s, t[..|t| - 1]);
      assert (s + t)[..|s + t| - 1] == s + t[..|t| - 1];
    }
  }

  lemma {:induction false} NoLines(s: string)
    requires '\n' !in s
    ensures Lines(s) == 0
  {
    if s != [] {
      NoLines(s[..|s| - 1]);
    }
  }

  /** A line without a line break in its text counts as one. */
  lemma OneLine(s: string)
    requires '\n' !in s
    ensures Lines(Line(s)) == 1
  {
    NoLines(s);
    LinesAppend(s, "\n");
    assert Lines("\n") == 1;
  }

  /** A comment whose fields hold no line break takes exactly five lines. */
  lemma BlockLines(n: Comment)
    requires '\n' !in n.author && '\n' !in n.body && '\n' !in n.subreddit && '\n' !in n.url
    ensures Lines(Block(n)) == 5
  {
    assert "Author: /u/" == ['A', 'u', 't', 'h', 'o', 'r', ':', ' ', '/', 'u', '/'];
    assert "Text: " == ['T', 'e', 'x', 't', ':', ' '];
    assert "Subreddit: /r/" == ['S', 'u', 'b', 'r', 'e', 'd', 'd', 'i', 't', ':', ' ', '/', 'r', '/'];
    assert "URL:" == ['U', 'R', 'L', ':'];
    var f1, f2, f3, f4, f5 :=
      Line("Author: /u/" + n.author), Line("Text: " + n.body), Line("Subreddit: /r/" + n.subreddit),
      Line("URL:" + n.url), Line(Rule);
    OneLine("Author: /u/" + n.author);
    OneLine("Text: " + n.body);
    OneLine("Subreddit: /r/" + n.subreddit);
    OneLine("URL:" + n.url);
    BannerShape();
    OneLine(Rule);
    LinesAppend(f1, f2);
    LinesAppend(f1 + f2, f3);
    LinesAppend(f1 + f2 + f3, f4);
    LinesAppend(f1 + f2 + f3 + f4, f5);
  }

  /** Comments whose fields hold no line break take five lines each. */
  lemma {:induction false} BlocksLines(items: seq<Comment>)
    requires forall i :: 0 <= i < |items| ==>
      '\n' !in items[i].author && '\n' !in items[i].body && '\n' !in items[i].subreddit && '\n' !in items[i].url
    ensures Lines(Blocks(items)) == 5 * |items|
  {
    if items != [] {
      var front := items[..|items| - 1];
      BlocksLines(front);
      BlockLines(items[|items| - 1]);
      LinesAppend(Blocks(front), Block(items[|items| - 1]));
    }
  }

  /** The banner is three lines. */
  lemma HeaderLines()
    ensures Lines(Header) == 3
  {
    BannerShape();
    OneLine(Rule);
    OneLine(Title);
    LinesAppend(Line(Rule), Line(Title));
    LinesAppend(Line(Rule) + Line(Title), Line(Rule));
  }

  /** Appending a comment's five lines one by one appends its block. */
  lemma AppendBlock(out: string, n: Comment)
    ensures out + Line("Author: /u/" + n.author) + Line("Text: " + n.body) + Line("Subreddit: /r/" + n.subreddit)
      + Line("URL:" + n.url) + Line(Rule) == out + Block(n)
  {
    var f1, f2, f3, f4, f5 :=
      Line("Author: /u/" + n.author), Line("Text: " + n.body), Line("Subreddit: /r/" + n.subreddit),
      Line("URL:" + n.url), Line(Rule);
    Associative(out, f1, f2);
    Associative(out, f1 + f2, f3);
    Associative(out, f1 + f2 + f3, f4);
    Associative(out, f1 + f2 + f3 + f4, f5);
  }

  lemma Associative(x: string, y: string, z: string)
    ensures x + y + z == x + (y + z)
  {
  }

  /**
   With no line break inside a field, the report is three banner lines plus
   five lines per accumulated comment.
   */
  lemma ReportLines(items: seq<Comment>)
    requires forall i :: 0 <= i < |items| ==>
      '\n' !in items[i].author && '\n' !in items[i].body && '\n' !in items[i].subreddit && '\n' !in items[i].url
    ensures Lines(ReportText(items)) == 3 + 5 * |items|
  {
    HeaderLines();
    BlocksLines(items);
    LinesAppend(Header, Blocks(items));
  }
}
