/** The greedy word wrap of a card's description on the detail screen. The
    font's width of a string is a parameter `measure`; nothing is assumed
    about it. */
module WordWrap {
  import opened Screen

  /** The characters Python's str.split() separates words on. */
  predicate IsSpace(c: char) {
    var n := c as int;
    || n == 0x20 || 0x09 <= n <= 0x0D || 0x1C <= n <= 0x1F || n == 0x85 || n == 0xA0
    || n == 0x1680 || 0x2000 <= n <= 0x200A || n == 0x2028 || n == 0x2029
    || n == 0x202F || n == 0x205F || n == 0x3000
  }

  /** A word: a non-empty run of non-space characters. */
  predicate IsWord(w: string) {
    |w| > 0 && forall i :: 0 <= i < |w| ==> !IsSpace(w[i])
  }

  /** The length of the word `s` starts with (0 when it starts with a space). */
  function WordLength(s: string): (n: nat)
    ensures n <= |s|
    ensures forall i :: 0 <= i < n ==> !IsSpace(s[i])
    ensures n < |s| ==> IsSpace(s[n])
    decreases |s|
  {
    if s == [] || IsSpace(s[0]) then 0 else 1 + WordLength(s[1..])
  }

  /** str.split() with no argument: the maximal runs of non-space characters, in order. */
  function Split(s: string): (ws: seq<string>)
    ensures forall k :: 0 <= k < |ws| ==> IsWord(ws[k])
    decreases |s|
  {
    if s == [] then []
    else if IsSpace(s[0]) then Split(s[1..])
    else
      var n := WordLength(s);
      [s[..n]] + Split(s[n..])
  }

  /** " ".join(ws), built from the left as the wrap loop builds a line. */
  function Join(ws: seq<string>): string
    decreases |ws|
  {
    if ws == [] then ""
    else if |ws| == 1 then ws[0]
    else Join(ws[..|ws| - 1]) + " " + ws[|ws| - 1]
  }

  /** The words of several lines, in order. */
  function Words(lines: seq<string>): seq<string>
    decreases |lines|
  {
    if lines == [] then [] else Split(lines[0]) + Words(lines[1..])
  }

  /** The candidate line of the loop: the word appended to the current line
      after a space, or the word alone when the current line is empty. */
  function Extend(cur: string, w: string): string {
    if cur != "" then cur + " " + w else w
  }

  /** The test of the loop: the candidate is narrower than the wrap limit. */
  predicate Fits(measure: string -> int, s: string) {
    measure(s) < WrapLimit
  }

  /** The lines the loop produces from the words `ws` still to place, when
      the line under construction is `cur`. */
  function Fill(measure: string -> int, cur: string, ws: seq<string>): seq<string>
    decreases |ws|
  {
    if ws == [] then (if cur != "" then [cur] else [])
    else
      var test := Extend(cur, ws[0]);
      if Fits(measure, test) then Fill(measure, test, ws[1..])
      else [cur] + Fill(measure, ws[0], ws[1..])
  }

  /** The lines a description is wrapped into. */
  function WrapLines(description: string, measure: string -> int): seq<string> {
    Fill(measure, "", Split(description))
  }

  /** The wrap loop of the detail screen. */
  method WrapDescription(description: string, measure: string -> int) returns (lines: seq<string>)
    ensures lines == WrapLines(description, measure)
    ensures Words(lines) == Split(description)
    ensures forall k :: 0 <= k < |lines| && |Split(lines[k])| >= 2 ==> Fits(measure, lines[k])
    ensures forall k :: 0 <= k < |lines| ==>
              (lines[k] == "" <==> k == 0 && !Fits(measure, Split(description)[0]))
    ensures Tight(measure, lines)
  {
    var words := Split(description);
    lines := [];
    var current := "";
    for i := 0 to |words|
      invariant lines + Fill(measure, current, words[i..]) == WrapLines(description, measure)
    {
      var word := words[i];
      var test := if current != "" then current + " " + word else word;
      FillStep(measure, current, words[i..]);
      assert words[i..][1..] == words[i + 1..];
      if measure(test) < WrapLimit {
        current := test;
      } else {
        lines := lines + [current];
        current := word;
      }
    }
    assert words[|words|..] == [];
    if current != "" {
      lines := lines + [current];
    }
    WrapKeepsWords(description, measure);
    WrapShape(description, measure);
    WrapEmptyLine(description, measure);
    WrapGreedy(description, measure);
  }

  /** One turn of the loop: the first pending word joins the current line if
      the candidate fits, otherwise the current line is emitted. */
  lemma FillStep(measure: string -> int, cur: string, ws: seq<string>)
    requires ws != []
    ensures Fill(measure, cur, ws) ==
              if Fits(measure, Extend(cur, ws[0])) then Fill(measure, Extend(cur, ws[0]), ws[1..])
              else [cur] + Fill(measure, ws[0], ws[1..])
  {
  }

  /** Uniqueness of the word length: the run ends at the first space. */
  lemma WordLengthIs(s: string, n: nat)
    requires n <= |s| && forall i :: 0 <= i < n ==> !IsSpace(s[i])
    requires n < |s| ==> IsSpace(s[n])
    ensures WordLength(s) == n
  {
  }

  /** A word splits into itself. */
  lemma SplitWord(w: string)
    requires IsWord(w)
    ensures Split(w) == [w]
  {
    WordLengthIs(w, |w|);
    assert w[..|w|] == w && w[|w|..] == [];
  }

  /** A space separates: splitting x + " " + y splits x and y apart. */
  lemma {:induction false} SplitSpace(x: string, y: string)
    ensures Split(x + " " + y) == Split(x) + Split(y)
    decreases |x|
  {
    var s := x + " " + y;
    if x == [] {
      assert s[1..] == y;
    } else if IsSpace(x[0]) {
      assert s[1..] == x[1..] + " " + y;
      SplitSpace(x[1..], y);
    } else {
      var n := WordLength(x);
      WordLengthIs(s, n);
      assert s[..n] == x[..n];
      assert s[n..] == x[n..] + " " + y;
      SplitSpace(x[n..], y);
    }
  }

  /** Joining words with single spaces and splitting again gives the words back. */
  lemma {:induction false} SplitJoin(ws: seq<string>)
    requires forall k :: 0 <= k < |ws| ==> IsWord(ws[k])
    ensures Split(Join(ws)) == ws
    decreases |ws|
  {
    if |ws| == 1 {
      SplitWord(ws[0]);
    } else if |ws| > 1 {
      var init := ws[..|ws| - 1];
      SplitJoin(init);
      SplitSpace(Join(init), ws[|ws| - 1]);
      SplitWord(ws[|ws| - 1]);
      assert init + [ws[|ws| - 1]] == ws;
    }
  }

  /** A line in normal form: its words joined by single spaces. */
  predicate Normal(line: string) {
    line == Join(Split(line))
  }

  /** Appending a word to a line appends it to the line's words. */
  lemma ExtendSplit(cur: string, w: string)
    requires IsWord(w)
    ensures Split(Extend(cur, w)) == Split(cur) + [w]
  {
    SplitWord(w);
    if cur != "" {
      SplitSpace(cur, w);
    } else {
      assert Split(cur) == [];
    }
  }

  /** Appending a word to a line in normal form keeps it in normal form. */
  lemma ExtendNormal(cur: string, w: string)
    requires Normal(cur) && IsWord(w)
    ensures Normal(Extend(cur, w))
  {
    ExtendSplit(cur, w);
    if cur != "" {
      var ws := Split(cur) + [w];
      assert ws[..|ws| - 1] == Split(cur);
    }
  }

  /** The words of one line followed by more lines. */
  lemma WordsCons(line: string, rest: seq<string>)
    ensures Words([line] + rest) == Split(line) + Words(rest)
  {
    assert ([line] + rest)[1..] == rest;
  }

  /** No word is lost, duplicated or reordered by the loop. */
  lemma {:induction false} FillWords(measure: string -> int, cur: string, ws: seq<string>)
    requires forall k :: 0 <= k < |ws| ==> IsWord(ws[k])
    ensures Words(Fill(measure, cur, ws)) == Split(cur) + ws
    decreases |ws|, 2
  {
    if ws == [] {
      if cur != "" {
        assert Fill(measure, cur, ws) == [cur];
        WordsCons(cur, []);
        assert Words([]) == [];
      } else {
        assert Fill(measure, cur, ws) == [];
        assert Split(cur) == [];
      }
    } else if Fits(measure, Extend(cur, ws[0])) {
      FillWordsJoin(measure, cur, ws);
    } else {
      FillWordsBreak(measure, cur, ws);
    }
  }

  /** FillWords when the first pending word joins the current line. */
  lemma {:induction false} FillWordsJoin(measure: string -> int, cur: string, ws: seq<string>)
    requires forall k :: 0 <= k < |ws| ==> IsWord(ws[k])
    requires ws != [] && Fits(measure, Extend(cur, ws[0]))
    ensures Words(Fill(measure, cur, ws)) == Split(cur) + ws
    decreases |ws|, 1
  {
    FillStep(measure, cur, ws);
    FillWordsRest(measure, Extend(cur, ws[0]), ws);
    ExtendSplit(cur, ws[0]);
    AppendFirst(Split(cur), ws);
  }

  /** The words still pending after the first are placed from line `cur` on. */
  lemma {:induction false} FillWordsRest(measure: string -> int, cur: string, ws: seq<string>)
    requires forall k :: 0 <= k < |ws| ==> IsWord(ws[k])
    requires ws != []
    ensures Words(Fill(measure, cur, ws[1..])) == Split(cur) + ws[1..]
    decreases |ws|, 0
  {
    var rest := ws[1..];
    forall k | 0 <= k < |rest| ensures IsWord(rest[k]) {
      assert rest[k] == ws[k + 1];
    }
    FillWords(measure, cur, rest);
  }

  /** Appending the first element and then the rest appends the whole. */
  lemma AppendFirst(xs: seq<string>, ws: seq<string>)
    requires ws != []
    ensures xs + [ws[0]] + ws[1..] == xs + ws
  {
    assert [ws[0]] + ws[1..] == ws;
  }

  /** FillWords when the current line is emitted. */
  lemma {:induction false} FillWordsBreak(measure: string -> int, cur: string, ws: seq<string>)
    requires forall k :: 0 <= k < |ws| ==> IsWord(ws[k])
    requires ws != [] && !Fits(measure, Extend(cur, ws[0]))
    ensures Words(Fill(measure, cur, ws)) == Split(cur) + ws
    decreases |ws|, 0
  {
    var w := ws[0];
    FillStep(measure, cur, ws);
    SplitWord(w);
    FillWords(measure, w, ws[1..]);
    var rest := Fill(measure, w, ws[1..]);
    WordsCons(cur, rest);
    calc {
      Words(Fill(measure, cur, ws));
      Words([cur] + rest);
      Split(cur) + Words(rest);
      Split(cur) + ([w] + ws[1..]);
      { assert [w] + ws[1..] == ws; }
      Split(cur) + ws;
    }
  }

  /** Every line the loop emits is in normal form, and a line of two or more
      words is narrower than the wrap limit; only a single word too wide on
      its own can exceed it. */
  lemma {:induction false} FillLines(measure: string -> int, cur: string, ws: seq<string>)
    requires Normal(cur) && (|Split(cur)| >= 2 ==> Fits(measure, cur))
    requires forall k :: 0 <= k < |ws| ==> IsWord(ws[k])
    ensures forall k :: 0 <= k < |Fill(measure, cur, ws)| ==>
              var line := Fill(measure, cur, ws)[k];
              Normal(line) && (|Split(line)| >= 2 ==> Fits(measure, line))
    decreases |ws|
  {
    if ws != [] {
      var w := ws[0];
      var test := Extend(cur, w);
      FillStep(measure, cur, ws);
      ExtendNormal(cur, w);
      if Fits(measure, test) {
        FillLines(measure, test, ws[1..]);
      } else {
        ExtendNormal("", w);
        SplitWord(w);
        FillLines(measure, w, ws[1..]);
      }
    }
  }

  /** The loop emits an empty line only as its first line, and exactly when
      the current line is empty and the first word alone does not fit. */
  lemma {:induction false} FillEmpty(measure: string -> int, cur: string, ws: seq<string>)
    requires forall k :: 0 <= k < |ws| ==> IsWord(ws[k])
    ensures var lines := Fill(measure, cur, ws);
            forall k :: 0 <= k < |lines| ==>
              (lines[k] == "" <==> k == 0 && cur == "" && ws != [] && !Fits(measure, ws[0]))
    decreases |ws|
  {
    if ws != [] {
      var w := ws[0];
      var test := Extend(cur, w);
      FillStep(measure, cur, ws);
      assert test != "" && (cur == "" ==> test == w);
      if Fits(measure, test) {
        FillEmpty(measure, test, ws[1..]);
      } else {
        FillEmpty(measure, w, ws[1..]);
        var rest := Fill(measure, w, ws[1..]);
        forall k | 0 < k < |rest| + 1
          ensures ([cur] + rest)[k] != ""
        {
          assert ([cur] + rest)[k] == rest[k - 1];
        }
      }
    }
  }

  /** Emitting at least one line when a word is pending or the current line is
      not empty; the first line starts with the current line's first word. */
  lemma {:induction false} FillHead(measure: string -> int, cur: string, ws: seq<string>)
    requires cur != "" && Split(cur) != []
    requires forall k :: 0 <= k < |ws| ==> IsWord(ws[k])
    ensures |Fill(measure, cur, ws)| >= 1
    ensures Split(Fill(measure, cur, ws)[0]) != []
    ensures Split(Fill(measure, cur, ws)[0])[0] == Split(cur)[0]
    decreases |ws|
  {
    if ws != [] {
      var w := ws[0];
      var test := Extend(cur, w);
      FillStep(measure, cur, ws);
      if Fits(measure, test) {
        ExtendSplit(cur, w);
        FillHead(measure, test, ws[1..]);
      }
    }
  }

  /** Every line but the last is as long as the limit allows: adding the next
      line's first word to it, as the loop would, does not fit. */
  predicate Tight(measure: string -> int, lines: seq<string>)
    decreases |lines|
  {
    |lines| <= 1 ||
    (&& Split(lines[1]) != []
     && !Fits(measure, Extend(lines[0], Split(lines[1])[0]))
     && Tight(measure, lines[1..]))
  }

  /** Tight, line by line. */
  lemma {:induction false} TightAt(measure: string -> int, lines: seq<string>, k: int)
    requires Tight(measure, lines) && 0 <= k < |lines| - 1
    ensures Split(lines[k + 1]) != [] && !Fits(measure, Extend(lines[k], Split(lines[k + 1])[0]))
    decreases k
  {
    if k > 0 {
      TightAt(measure, lines[1..], k - 1);
      assert lines[1..][k - 1] == lines[k] && lines[1..][k] == lines[k + 1];
    }
  }

  /** The wrap is greedy: no line could have taken the next line's first word. */
  lemma {:induction false} FillGreedy(measure: string -> int, cur: string, ws: seq<string>)
    requires forall k :: 0 <= k < |ws| ==> IsWord(ws[k])
    ensures Tight(measure, Fill(measure, cur, ws))
    decreases |ws|
  {
    if ws != [] {
      var w := ws[0];
      var test := Extend(cur, w);
      FillStep(measure, cur, ws);
      if Fits(measure, test) {
        FillGreedy(measure, test, ws[1..]);
      } else {
        SplitWord(w);
        FillHead(measure, w, ws[1..]);
        FillGreedy(measure, w, ws[1..]);
        var rest := Fill(measure, w, ws[1..]);
        assert ([cur] + rest)[1..] == rest;
      }
    }
  }

  /** The words of the wrapped lines, in order, are the words of the description. */
  lemma WrapKeepsWords(description: string, measure: string -> int)
    ensures Words(WrapLines(description, measure)) == Split(description)
  {
    FillWords(measure, "", Split(description));
  }

  /** What every wrapped line looks like. */
  lemma WrapShape(description: string, measure: string -> int)
    ensures var lines := WrapLines(description, measure);
            forall k :: 0 <= k < |lines| ==>
              && lines[k] == Join(Split(lines[k]))
              && (|Split(lines[k])| >= 2 ==> Fits(measure, lines[k]))
  {
    FillLines(measure, "", Split(description));
  }

  /** An empty line appears only first, exactly when the description's first
      word alone is too wide. */
  lemma WrapEmptyLine(description: string, measure: string -> int)
    ensures var lines := WrapLines(description, measure); var ws := Split(description);
            && (ws != [] && !Fits(measure, ws[0]) ==> |lines| > 0 && lines[0] == "")
            && forall k :: 0 <= k < |lines| ==>
                 (lines[k] == "" <==> k == 0 && ws != [] && !Fits(measure, ws[0]))
  {
    var ws := Split(description);
    FillEmpty(measure, "", ws);
    if ws != [] {
      FillStep(measure, "", ws);
    }
  }

  /** Each line but the last is as long as the limit allows. */
  lemma WrapGreedy(description: string, measure: string -> int)
    ensures Tight(measure, WrapLines(description, measure))
  {
    FillGreedy(measure, "", Split(description));
  }
}
