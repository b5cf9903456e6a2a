/** The post details dialog: reading time, the date shown, the tags shown
    and the paragraphs of the body. */
module BlogDetails {
  import opened Wrappers
  import opened Json
  import opened Text

  // ------------------------------------------------------------ word count

  /** `s.split(/\s+/)`: the pieces between maximal runs of whitespace. A
      leading or trailing run gives an empty piece at that end. */
  function SplitSpaceRuns(s: string): (r: seq<string>)
    ensures |r| >= 1
    ensures forall i :: 0 <= i < |r| ==> NoSpace(r[i])
    decreases |s|
  {
    if s == [] then [[]]
    else if IsSpace(s[0]) then [[]] + SplitSpaceRuns(TrimStart(s[1..]))
    else
      var rest := SplitSpaceRuns(s[1..]);
      assert !IsSpace(s[0]) && NoSpace(rest[0]);
      ConsFirst(s[0], rest)
  }

  /** `(text || "").trim().split(/\s+/).filter(Boolean).length`. */
  function WordCount(text: Option<string>): nat
  {
    |Compact(SplitSpaceRuns(Trim(text.GetOr(""))))|
  }

  /** Words: non-empty and without whitespace. */
  predicate Words(ws: seq<string>)
  {
    forall i :: 0 <= i < |ws| ==> ws[i] != [] && NoSpace(ws[i])
  }

  lemma {:induction false} SplitNoSpace(a: string)
    requires NoSpace(a)
    ensures SplitSpaceRuns(a) == [a]
  {
    if a != [] {
      assert !IsSpace(a[0]);
      SplitNoSpace(a[1..]);
      assert [a[0]] + a[1..] == a;
    }
  }

  /** A maximal run of white space, however long and whatever its
      characters, ends one piece. With `SplitNoSpace` this fixes the split
      on every string. */
  lemma {:induction false} SplitAtRun(a: string, w: string, b: string)
    requires NoSpace(a) && w != [] && AllSpace(w) && (b == [] || !IsSpace(b[0]))
    ensures SplitSpaceRuns(a + w + b) == [a] + SplitSpaceRuns(b)
  {
    var s := a + w + b;
    if a == [] {
      assert s == w + b;
      assert s[0] == w[0] && s[1..] == w[1..] + b;
      assert TrimStart(w[1..] + b) == b by {
        TrimStartAfterSpaces(w[1..], b);
        TrimStartAtNonSpace(b);
      }
    } else {
      assert s[0] == a[0] && !IsSpace(a[0]);
      assert s[1..] == a[1..] + w + b;
      SplitAtRun(a[1..], w, b);
      assert [a[0]] + a[1..] == a;
    }
  }

  lemma {:induction false} JoinEnds(ws: seq<string>, sep: string)
    requires |ws| >= 1 && Words(ws)
    ensures var j := Join(ws, sep); j != [] && j[0] == ws[0][0] && j[|j| - 1] == ws[|ws| - 1][|ws[|ws| - 1]| - 1]
  {
    if |ws| > 1 {
      JoinEnds(ws[1..], sep);
      var rest := Join(ws[1..], sep);
      assert Join(ws, sep) == ws[0] + sep + rest;
    }
  }

  /** Words joined by single spaces split back into the same words. */
  lemma {:induction false} SplitJoinedWords(ws: seq<string>)
    requires |ws| >= 1 && Words(ws)
    ensures SplitSpaceRuns(Join(ws, " ")) == ws
  {
    if |ws| == 1 {
      SplitNoSpace(ws[0]);
    } else {
      JoinEnds(ws[1..], " ");
      assert !IsSpace(ws[1][0]);
      assert ws[0] + " " + Join(ws[1..], " ") == Join(ws, " ");
      SplitAtRun(ws[0], " ", Join(ws[1..], " "));
      SplitJoinedWords(ws[1..]);
      assert ws == [ws[0]] + ws[1..];
    }
  }

  lemma {:induction false} CompactWords(ws: seq<string>)
    requires Words(ws)
    ensures Compact(ws) == ws
  {
    if ws != [] {
      CompactWords(ws[1..]);
      assert ws == [ws[0]] + ws[1..];
    }
  }

  /** White-space runs between words: each non-empty and all white space. */
  predicate Separators(seps: seq<string>)
  {
    forall i :: 0 <= i < |seps| ==> seps[i] != [] && AllSpace(seps[i])
  }

  /** The words with `seps[i]` between word `i` and word `i + 1`. */
  function Interleave(ws: seq<string>, seps: seq<string>): string
    requires |seps| == if ws == [] then 0 else |ws| - 1
    decreases |ws|
  {
    if ws == [] then []
    else if |ws| == 1 then ws[0]
    else ws[0] + seps[0] + Interleave(ws[1..], seps[1..])
  }

  lemma {:induction false} InterleaveEnds(ws: seq<string>, seps: seq<string>)
    requires |ws| >= 1 && |seps| == |ws| - 1 && Words(ws)
    ensures var j := Interleave(ws, seps); j != [] && j[0] == ws[0][0] && j[|j| - 1] == ws[|ws| - 1][|ws[|ws| - 1]| - 1]
    decreases |ws|
  {
    if |ws| > 1 {
      InterleaveEnds(ws[1..], seps[1..]);
    }
  }

  /** Words with any white-space runs between them split back into the
      same words. */
  lemma {:induction false} SplitInterleaved(ws: seq<string>, seps: seq<string>)
    requires |ws| >= 1 && |seps| == |ws| - 1 && Words(ws) && Separators(seps)
    ensures SplitSpaceRuns(Interleave(ws, seps)) == ws
    decreases |ws|
  {
    if |ws| == 1 {
      SplitNoSpace(ws[0]);
    } else {
      var rest := Interleave(ws[1..], seps[1..]);
      InterleaveEnds(ws[1..], seps[1..]);
      assert !IsSpace(ws[1][0]);
      SplitAtRun(ws[0], seps[0], rest);
      SplitInterleaved(ws[1..], seps[1..]);
      assert ws == [ws[0]] + ws[1..];
    }
  }

  /** The count is the number of words: `n` words, with any white space
      before, between and after them, count `n`. */
  lemma WordCountOfWords(lead: string, ws: seq<string>, seps: seq<string>, trail: string)
    requires Words(ws) && Separators(seps) && |seps| == (if ws == [] then 0 else |ws| - 1)
    requires AllSpace(lead) && AllSpace(trail)
    ensures WordCount(Some(lead + Interleave(ws, seps) + trail)) == |ws|
  {
    var j := Interleave(ws, seps);
    if ws == [] {
      assert lead + j + trail == lead + trail;
      AllSpaceConcat(lead, trail);
      BlankCountsZero(Some(lead + trail));
    } else {
      InterleaveEnds(ws, seps);
      assert ws[0][0] in ws[0] && ws[|ws| - 1][|ws[|ws| - 1]| - 1] in ws[|ws| - 1];
      assert Trimmed(j);
      assert Trim(lead + j + trail) == j by {
        TrimPadded(lead, j, trail);
      }
      SplitInterleaved(ws, seps);
      CompactWords(ws);
    }
  }

  /** Mixed white space between two words still separates just two. */
  lemma MixedWhiteSpace()
    ensures WordCount(Some("a \t\n b")) == 2
  {
    var ws, seps := ["a", "b"], [" \t\n "];
    assert "" + Interleave(ws, seps) + "" == "a \t\n b";
    WordCountOfWords("", ws, seps, "");
  }

  /** Missing, empty and whitespace-only text counts no words. */
  lemma BlankCountsZero(text: Option<string>)
    requires AllSpace(text.GetOr(""))
    ensures WordCount(text) == 0
  {
    var t := text.GetOr("");
    assert Trim(t) == [] by {
      AllSpaceTrimsToEmpty(t);
    }
    var pieces: seq<string> := [[]];
    assert SplitSpaceRuns([]) == pieces;
    assert Compact(pieces) == [] by {
      assert pieces[1..] == [];
    }
  }

  // ---------------------------------------------------------- reading time

  /** `Math.round`: halves round up. */
  function JsRound(x: real): int
  {
    (x + 0.5).Floor
  }

  function Max(a: int, b: int): int
  {
    if a >= b then a else b
  }

  /** `Math.max(1, Math.round(words / 200))`. */
  function Minutes(words: nat): (m: int)
    ensures m >= 1
  {
    Max(1, JsRound(words as real / 200.0))
  }

  /** `readingTime(text)`. */
  function ReadingTime(text: Option<string>): (m: int)
    ensures m >= 1
  {
    Minutes(WordCount(text))
  }

  /** Rounding `w / 200` half up is integer division of `w + 100`. */
  lemma RoundByDivision(w: nat)
    ensures JsRound(w as real / 200.0) == (w + 100) / 200
  {
    var k := (w + 100) / 200;
    assert 200 * k <= w + 100 < 200 * k + 200;
    var x := w as real / 200.0 + 0.5;
    assert x == (w + 100) as real / 200.0;
    assert (200 * k) as real <= (w + 100) as real < (200 * k + 200) as real;
    assert k as real <= x < (k + 1) as real;
  }

  /** The minutes in integer arithmetic. */
  lemma MinutesInIntegers(words: nat)
    ensures Minutes(words) == Max(1, (words + 100) / 200)
  {
    RoundByDivision(words);
  }

  /** More words never take less time. */
  lemma MinutesMonotone(v: nat, w: nat)
    requires v <= w
    ensures Minutes(v) <= Minutes(w)
  {
    MinutesInIntegers(v);
    MinutesInIntegers(w);
    DivMonotone(v + 100, w + 100);
  }

  lemma DivMonotone(a: nat, b: nat)
    requires a <= b
    ensures a / 200 <= b / 200
  {
    assert a == 200 * (a / 200) + a % 200;
    assert b == 200 * (b / 200) + b % 200;
  }

  /** Where the minutes step: 299 words take one minute, 300 (one and a
      half, rounded up) two, 500 three. */
  lemma MinuteSteps()
    ensures Minutes(0) == 1 && Minutes(299) == 1 && Minutes(300) == 2 && Minutes(500) == 3
  {
    MinutesInIntegers(0);
    MinutesInIntegers(299);
    MinutesInIntegers(300);
    MinutesInIntegers(500);
  }

  // ------------------------------------------------------------ paragraphs

  /** No two consecutive newlines. */
  predicate NoBlankLine(p: string)
  {
    forall k :: 0 <= k < |p| - 1 ==> !(p[k] == '\n' && p[k + 1] == '\n')
  }

  /** Drops leading newlines. */
  function DropNewlines(s: string): (r: string)
    ensures |r| <= |s| && (r == [] || r[0] != '\n')
  {
    if s != [] && s[0] == '\n' then DropNewlines(s[1..]) else s
  }

  /** `s.split(/\n{2,}/)`: the pieces between runs of two or more newlines. */
  function SplitBlankLines(s: string): (r: seq<string>)
    ensures |r| >= 1
    ensures forall i :: 0 <= i < |r| ==> NoBlankLine(r[i])
    decreases |s|
  {
    if s == [] then [[]]
    else if |s| >= 2 && s[0] == '\n' && s[1] == '\n' then [[]] + SplitBlankLines(DropNewlines(s[2..]))
    else
      var rest := SplitBlankLines(s[1..]);
      var q := ConsFirst(s[0], rest);
      assert forall k :: 0 < k < |q[0]| - 1 ==> q[0][k] == rest[0][k - 1] && q[0][k + 1] == rest[0][k];
      q
  }

  /** `content || excerpt || ""`. */
  function Body(content: Option<string>, excerpt: Option<string>): (r: string)
    ensures content.Some? && content.value != "" ==> r == content.value
    ensures (content.None? || content.value == "") && excerpt.Some? ==> r == excerpt.value
    ensures (content.None? || content.value == "") && excerpt.None? ==> r == ""
  {
    if content.Some? && content.value != "" then content.value
    else excerpt.GetOr("")
  }

  /** The article's paragraphs: the body split at blank lines, empty pieces
      dropped. */
  function Paragraphs(content: Option<string>, excerpt: Option<string>): (r: seq<string>)
    ensures forall i :: 0 <= i < |r| ==> r[i] != "" && NoBlankLine(r[i])
  {
    var pieces := SplitBlankLines(Body(content, excerpt));
    assert forall x :: x in pieces ==> NoBlankLine(x);
    Compact(pieces)
  }

  /** Paragraph text as it reads back: non-empty, without a blank line
      inside and without a newline at either end. */
  predicate Paragraph(p: string)
  {
    p != [] && NoBlankLine(p) && p[0] != '\n' && p[|p| - 1] != '\n'
  }

  /** A piece without a blank line stays whole, even when it ends in a
      single line feed. */
  lemma {:induction false} SplitParagraph(p: string)
    requires NoBlankLine(p)
    ensures SplitBlankLines(p) == [p]
  {
    if p != [] {
      assert !(p[0] == '\n' && |p| >= 2 && p[1] == '\n');
      SplitParagraph(p[1..]);
      assert [p[0]] + p[1..] == p;
    }
  }

  lemma {:induction false} SplitAtBlankLine(a: string, b: string)
    requires a == [] || (NoBlankLine(a) && a[|a| - 1] != '\n')
    requires b == [] || b[0] != '\n'
    ensures SplitBlankLines(a + "\n\n" + b) == [a] + SplitBlankLines(b)
  {
    var s := a + "\n\n" + b;
    if a == [] {
      assert s[0] == '\n' && s[1] == '\n' && s[2..] == b;
      assert DropNewlines(b) == b;
    } else {
      assert s[0] == a[0] && s[1..] == a[1..] + "\n\n" + b;
      if |a| == 1 {
        assert a[0] != '\n';
      } else {
        assert !(a[0] == '\n' && a[1] == '\n');
      }
      SplitAtBlankLine(a[1..], b);
      assert [a[0]] + a[1..] == a;
    }
  }

  /** `n` newlines. */
  function Newlines(n: nat): (r: string)
    ensures |r| == n && forall i :: 0 <= i < n ==> r[i] == '\n'
  {
    if n == 0 then [] else "\n" + Newlines(n - 1)
  }

  /** A run of newlines followed by another character is dropped whole. */
  lemma {:induction false} DropNewlineRun(k: nat, b: string)
    requires b == [] || b[0] != '\n'
    ensures DropNewlines(Newlines(k) + b) == b
  {
    if k > 0 {
      var s := Newlines(k) + b;
      assert s[0] == '\n' && s[1..] == Newlines(k - 1) + b;
      DropNewlineRun(k - 1, b);
    }
  }

  /** A maximal run of two or more newlines is one split point: the text
      before it is a piece and the rest is split on. */
  lemma {:induction false} SplitAtBlankRun(a: string, n: nat, b: string)
    requires n >= 2
    requires a == [] || (NoBlankLine(a) && a[|a| - 1] != '\n')
    requires b == [] || b[0] != '\n'
    ensures SplitBlankLines(a + Newlines(n) + b) == [a] + SplitBlankLines(b)
  {
    var s := a + Newlines(n) + b;
    if a == [] {
      assert s == Newlines(n) + b;
      assert s[0] == '\n' && s[1] == '\n';
      assert s[2..] == Newlines(n - 2) + b by {
        assert Newlines(n) == "\n" + ("\n" + Newlines(n - 2));
      }
      DropNewlineRun(n - 2, b);
    } else {
      assert s[0] == a[0] && s[1..] == a[1..] + Newlines(n) + b;
      if |a| == 1 {
        assert a[0] != '\n';
      } else {
        assert !(a[0] == '\n' && a[1] == '\n');
      }
      SplitAtBlankRun(a[1..], n, b);
      assert [a[0]] + a[1..] == a;
    }
  }

  /** Two paragraphs separated by any run of two or more newlines are shown
      as those two paragraphs. */
  lemma ParagraphsAcrossRun(a: string, n: nat, b: string)
    requires n >= 2 && Paragraph(a) && Paragraph(b)
    ensures Paragraphs(Some(a + Newlines(n) + b), None) == [a, b]
  {
    var s := a + Newlines(n) + b;
    assert s != [] by { assert s[0] == a[0]; }
    SplitAtBlankRun(a, n, b);
    SplitParagraph(b);
    assert SplitBlankLines(s) == [a, b];
    CompactParagraphs([a, b]);
  }

  /** Paragraphs joined by blank lines come back as the same paragraphs. */
  lemma {:induction false} SplitJoinedParagraphs(ps: seq<string>)
    requires |ps| >= 1 && forall i :: 0 <= i < |ps| ==> Paragraph(ps[i])
    ensures SplitBlankLines(Join(ps, "\n\n")) == ps
  {
    if |ps| == 1 {
      SplitParagraph(ps[0]);
    } else {
      var rest := Join(ps[1..], "\n\n");
      ParagraphJoinStart(ps[1..]);
      SplitAtBlankLine(ps[0], rest);
      SplitJoinedParagraphs(ps[1..]);
      assert ps == [ps[0]] + ps[1..];
    }
  }

  lemma {:induction false} ParagraphJoinStart(ps: seq<string>)
    requires |ps| >= 1 && forall i :: 0 <= i < |ps| ==> Paragraph(ps[i])
    ensures var j := Join(ps, "\n\n"); ps[0] != [] && j != [] && j[0] == ps[0][0]
  {
    if |ps| > 1 {
      assert Join(ps, "\n\n") == ps[0] + "\n\n" + Join(ps[1..], "\n\n");
    }
  }

  lemma {:induction false} CompactParagraphs(ps: seq<string>)
    requires forall i :: 0 <= i < |ps| ==> ps[i] != []
    ensures Compact(ps) == ps
  {
    if ps != [] {
      CompactParagraphs(ps[1..]);
      assert ps == [ps[0]] + ps[1..];
    }
  }

  /** A body written as paragraphs separated by blank lines is shown as
      those paragraphs. */
  lemma ParagraphsRoundTrip(ps: seq<string>)
    requires |ps| >= 1 && forall i :: 0 <= i < |ps| ==> Paragraph(ps[i])
    ensures Paragraphs(Some(Join(ps, "\n\n")), None) == ps
  {
    ParagraphJoinStart(ps);
    SplitJoinedParagraphs(ps);
    CompactParagraphs(ps);
  }

  // ---------------------------------------------------- date and tag fallback

  /** `(date || createdAt || "").slice(0, 10)`. */
  function DisplayDate(date: Option<string>, createdAt: Option<string>): (r: string)
    ensures |r| <= 10
    ensures date.Some? && date.value != "" ==> r == Take(date.value, 10)
    ensures (date.None? || date.value == "") && createdAt.Some? ==> r == Take(createdAt.value, 10)
    ensures (date.None? || date.value == "") && createdAt.None? ==> r == ""
  {
    var shown := if date.Some? && date.value != "" then date.value else createdAt.GetOr("");
    Take(shown, 10)
  }

  /** `data?.tags && Array.isArray(data.tags) ? data.tags : []`; `tags` is
      `Absent` while no post is loaded. */
  function ShownTags(tags: Value): (r: seq<Value>)
    ensures tags.Arr? ==> r == tags.items
    ensures !tags.Arr? ==> r == []
  {
    if tags.Arr? then tags.items else []
  }
}
