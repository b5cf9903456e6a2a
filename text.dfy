/** ASCII string operations with JavaScript's meaning: `toLowerCase`, `trim`,
    `split`, `join`, `includes`, `startsWith`, `slice(0, n)`, number-to-decimal
    conversion and the default ordering `Array.prototype.sort` uses. */
module Text {

  /** JavaScript's `\s` (and the characters `trim` removes), restricted to ASCII:
      tab, line feed, vertical tab, form feed, carriage return and space. */
  predicate IsSpace(c: char)
  {
    c == ' ' || ('\t' <= c <= '\r')
  }

  predicate NoSpace(s: string)
  {
    forall i :: 0 <= i < |s| ==> !IsSpace(s[i])
  }

  predicate AllSpace(s: string)
  {
    forall i :: 0 <= i < |s| ==> IsSpace(s[i])
  }

  /** A string `trim` leaves as it is: empty, or starting and ending with a non-space. */
  predicate Trimmed(s: string)
  {
    s == [] || (!IsSpace(s[0]) && !IsSpace(s[|s| - 1]))
  }

  // ---------------------------------------------------------------- lower case

  /** `toLowerCase` on one ASCII character; other characters are left alone. */
  function LowerChar(c: char): (d: char)
    ensures IsSpace(d) <==> IsSpace(c)
    ensures 'A' <= c <= 'Z' ==> 'a' <= d <= 'z' && d as int == c as int + 32
    ensures !('A' <= c <= 'Z') ==> d == c
  {
    if 'A' <= c <= 'Z' then (c as int - 'A' as int + 'a' as int) as char else c
  }

  function Lower(s: string): (r: string)
    ensures |r| == |s|
    ensures forall i :: 0 <= i < |s| ==> r[i] == LowerChar(s[i])
  {
    seq(|s|, i requires 0 <= i < |s| => LowerChar(s[i]))
  }

  lemma LowerIdempotent(s: string)
    ensures Lower(Lower(s)) == Lower(s)
  {
  }

  // ---------------------------------------------------------------- trim

  /** Removes the longest all-space prefix. */
  function TrimStart(s: string): (r: string)
    ensures |r| <= |s|
    ensures r == [] || !IsSpace(r[0])
  {
    if |s| > 0 && IsSpace(s[0]) then TrimStart(s[1..]) else s
  }

  /** What TrimStart removes is spaces, and what it keeps is the rest of `s`. */
  lemma {:induction false} TrimStartSpec(s: string)
    ensures forall i :: 0 <= i < |TrimStart(s)| ==> TrimStart(s)[i] == s[|s| - |TrimStart(s)| + i]
    ensures forall i :: 0 <= i < |s| - |TrimStart(s)| ==> IsSpace(s[i])
  {
    if |s| > 0 && IsSpace(s[0]) {
      TrimStartSpec(s[1..]);
    }
  }

  /** Removes the longest all-space suffix. */
  function TrimEnd(s: string): (r: string)
    ensures |r| <= |s|
    ensures r == [] || !IsSpace(r[|r| - 1])
  {
    if |s| > 0 && IsSpace(s[|s| - 1]) then TrimEnd(s[..|s| - 1]) else s
  }

  /** What TrimEnd removes is spaces, and what it keeps is the start of `s`. */
  lemma {:induction false} TrimEndSpec(s: string)
    ensures forall i :: 0 <= i < |TrimEnd(s)| ==> TrimEnd(s)[i] == s[i]
    ensures forall i :: |TrimEnd(s)| <= i < |s| ==> IsSpace(s[i])
  {
    if |s| > 0 && IsSpace(s[|s| - 1]) {
      TrimEndSpec(s[..|s| - 1]);
    }
  }

  /** `String.prototype.trim`: `s` without its leading and trailing spaces.
      The result starts and ends with a non-space. */
  function Trim(s: string): (r: string)
    ensures Trimmed(r)
    ensures |r| <= |s|
  {
    TrimEndSpec(TrimStart(s));
    TrimEnd(TrimStart(s))
  }

  /** `trim` adds no character: one missing from `s` is missing from the result. */
  lemma TrimWithout(s: string, c: char)
    requires c !in s
    ensures c !in Trim(s)
  {
    TrimStartWithout(s, c);
    TrimEndWithout(TrimStart(s), c);
  }

  lemma {:induction false} TrimStartWithout(s: string, c: char)
    requires c !in s
    ensures c !in TrimStart(s)
  {
    if |s| > 0 && IsSpace(s[0]) {
      assert forall x :: x in s[1..] ==> x in s;
      TrimStartWithout(s[1..], c);
    }
  }

  lemma {:induction false} TrimEndWithout(s: string, c: char)
    requires c !in s
    ensures c !in TrimEnd(s)
  {
    if |s| > 0 && IsSpace(s[|s| - 1]) {
      assert forall x :: x in s[..|s| - 1] ==> x in s;
      TrimEndWithout(s[..|s| - 1], c);
    }
  }

  lemma TrimOfTrimmed(s: string)
    requires Trimmed(s)
    ensures Trim(s) == s
  {
  }

  lemma TrimIdempotent(s: string)
    ensures Trim(Trim(s)) == Trim(s)
  {
    TrimOfTrimmed(Trim(s));
  }

  lemma {:induction false} TrimStartAfterSpaces(w: string, t: string)
    requires AllSpace(w)
    ensures TrimStart(w + t) == TrimStart(t)
  {
    if w != [] {
      var s := w + t;
      assert s[0] == w[0] && IsSpace(s[0]);
      assert s[1..] == w[1..] + t;
      TrimStartAfterSpaces(w[1..], t);
      assert TrimStart(s) == TrimStart(s[1..]);
    } else {
      assert w + t == t;
    }
  }

  /** Leading spaces in front of a trimmed string are what `trim` removes. */
  lemma TrimAfterSpaces(w: string, t: string)
    requires AllSpace(w) && Trimmed(t)
    ensures Trim(w + t) == t
  {
    TrimStartAfterSpaces(w, t);
  }

  lemma {:induction false} TrimEndBeforeSpaces(t: string, w: string)
    requires AllSpace(w)
    ensures TrimEnd(t + w) == TrimEnd(t)
  {
    if w != [] {
      var s := t + w;
      assert IsSpace(s[|s| - 1]);
      assert s[..|s| - 1] == t + w[..|w| - 1];
      TrimEndBeforeSpaces(t, w[..|w| - 1]);
    } else {
      assert t + w == t;
    }
  }

  lemma TrimStartAtNonSpace(s: string)
    requires s == [] || !IsSpace(s[0])
    ensures TrimStart(s) == s
  {
  }

  /** Spaces on both sides of a trimmed string are exactly what `trim` removes. */
  lemma TrimPadded(w: string, t: string, w2: string)
    requires AllSpace(w) && AllSpace(w2) && Trimmed(t)
    ensures Trim(w + t + w2) == t
  {
    if t == [] {
      assert Trim(w + t + w2) == [] by {
        AllSpaceConcat(w, w2);
        assert w + t + w2 == w + w2;
        AllSpaceTrimsToEmpty(w + w2);
      }
    } else {
      assert TrimStart(w + t + w2) == t + w2 by {
        assert w + t + w2 == w + (t + w2);
        TrimStartAfterSpaces(w, t + w2);
        assert (t + w2)[0] == t[0];
        TrimStartAtNonSpace(t + w2);
      }
      assert TrimEnd(t + w2) == t by {
        TrimEndBeforeSpaces(t, w2);
        TrimEndAtNonSpace(t);
      }
    }
  }

  lemma TrimEndAtNonSpace(s: string)
    requires s == [] || !IsSpace(s[|s| - 1])
    ensures TrimEnd(s) == s
  {
  }

  lemma AllSpaceConcat(a: string, b: string)
    requires AllSpace(a) && AllSpace(b)
    ensures AllSpace(a + b)
  {
    forall i | 0 <= i < |a + b| ensures IsSpace((a + b)[i]) {
      if i < |a| { assert (a + b)[i] == a[i]; } else { assert (a + b)[i] == b[i - |a|]; }
    }
  }

  lemma {:induction false} AllSpaceTrimsToEmpty(s: string)
    requires AllSpace(s)
    ensures TrimStart(s) == [] && Trim(s) == []
  {
    if s != [] {
      AllSpaceTrimsToEmpty(s[1..]);
    }
  }

  lemma {:induction false} LowerTrimStart(s: string)
    ensures Lower(TrimStart(s)) == TrimStart(Lower(s))
  {
    if |s| > 0 && IsSpace(s[0]) {
      assert Lower(s)[1..] == Lower(s[1..]);
      LowerTrimStart(s[1..]);
    }
  }

  lemma {:induction false} LowerTrimEnd(s: string)
    ensures Lower(TrimEnd(s)) == TrimEnd(Lower(s))
  {
    if |s| > 0 && IsSpace(s[|s| - 1]) {
      assert Lower(s)[..|s| - 1] == Lower(s[..|s| - 1]);
      LowerTrimEnd(s[..|s| - 1]);
    }
  }

  /** Trimming a lower-cased string is lower-casing the trimmed string. */
  lemma LowerTrim(s: string)
    ensures Lower(Trim(s)) == Trim(Lower(s))
  {
    LowerTrimStart(s);
    LowerTrimEnd(TrimStart(s));
  }

  // ---------------------------------------------------------------- prefixes and substrings

  /** `s.startsWith(p)`. */
  predicate StartsWith(s: string, p: string)
  {
    |p| <= |s| && s[..|p|] == p
  }

  predicate EndsWith(s: string, p: string)
  {
    |p| <= |s| && s[|s| - |p|..] == p
  }

  /** `s.includes(sub)`. */
  predicate Contains(s: string, sub: string)
    ensures Contains(s, sub) ==> |sub| <= |s|
    ensures StartsWith(s, sub) ==> Contains(s, sub)
    ensures EndsWith(s, sub) ==> Contains(s, sub)
  {
    assert StartsWith(s, sub) ==> OccursAt(s, sub, 0);
    assert EndsWith(s, sub) ==> OccursAt(s, sub, |s| - |sub|);
    exists i :: 0 <= i <= |s| - |sub| && OccursAt(s, sub, i)
  }

  predicate OccursAt(s: string, sub: string, i: nat)
    requires i + |sub| <= |s|
  {
    s[i..i + |sub|] == sub
  }

  /** A string holds each of its middle parts. */
  lemma ContainsMiddle(a: string, x: string, b: string)
    ensures Contains(a + x + b, x)
  {
    var s := a + x + b;
    assert s[|a|..|a| + |x|] == x;
    assert OccursAt(s, x, |a|);
  }

  /** A string keeps what it holds when more is appended to it. */
  lemma ContainsExtended(m: string, b: string, x: string)
    requires Contains(m, x)
    ensures Contains(m + b, x)
  {
    var i :| 0 <= i <= |m| - |x| && OccursAt(m, x, i);
    assert (m + b)[i..i + |x|] == m[i..i + |x|];
    assert OccursAt(m + b, x, i);
  }

  /** A string holds its own last part. */
  lemma ContainsLast(a: string, x: string)
    ensures Contains(a + x, x)
  {
    assert (a + x)[|a|..|a| + |x|] == x;
    assert OccursAt(a + x, x, |a|);
  }

  /** A string holding `a + b` holds `a`. */
  lemma ContainsPrefix(s: string, a: string, b: string)
    requires Contains(s, a + b)
    ensures Contains(s, a)
  {
    var i :| 0 <= i <= |s| - |a + b| && OccursAt(s, a + b, i);
    assert s[i..i + |a|] == (a + b)[..|a|] == a;
    assert OccursAt(s, a, i);
  }

  /** `s.slice(0, n)`. */
  function Take(s: string, n: nat): (r: string)
    ensures |r| <= n && StartsWith(s, r)
    ensures |s| <= n ==> r == s
    ensures n <= |s| ==> |r| == n
  {
    if |s| <= n then s else s[..n]
  }

  // ---------------------------------------------------------------- split and join

  /** Puts `c` in front of the first piece of a split. */
  function ConsFirst(c: char, r: seq<string>): (q: seq<string>)
    requires |r| >= 1
    ensures |q| == |r| && q[0] == [c] + r[0] && q[1..] == r[1..]
  {
    [[c] + r[0]] + r[1..]
  }

  /** `xs.join(sep)`. */
  function Join(xs: seq<string>, sep: string): string
  {
    if |xs| == 0 then []
    else if |xs| == 1 then xs[0]
    else xs[0] + sep + Join(xs[1..], sep)
  }

  lemma JoinConsFirst(c: char, r: seq<string>, sep: string)
    requires |r| >= 1
    ensures Join(ConsFirst(c, r), sep) == [c] + Join(r, sep)
  {
    var q := ConsFirst(c, r);
    if |r| > 1 {
      assert q[1..] == r[1..];
    }
  }

  /** `s.split(sep)` for a one-character separator: the pieces between
      separators, always at least one, none containing the separator. */
  function Split(s: string, sep: char): (r: seq<string>)
    ensures |r| >= 1
    ensures forall i :: 0 <= i < |r| ==> sep !in r[i]
  {
    if s == [] then [[]]
    else if s[0] == sep then [[]] + Split(s[1..], sep)
    else ConsFirst(s[0], Split(s[1..], sep))
  }

  /** Splitting and joining back with the separator gives the text again. */
  lemma {:induction false} JoinSplit(s: string, sep: char)
    ensures Join(Split(s, sep), [sep]) == s
  {
    if s == [] {
    } else if s[0] == sep {
      var r := Split(s[1..], sep);
      JoinSplit(s[1..], sep);
      assert ([[]] + r)[1..] == r;
    } else {
      JoinSplit(s[1..], sep);
      JoinConsFirst(s[0], Split(s[1..], sep), [sep]);
    }
  }

  lemma {:induction false} SplitSeparated(a: string, b: string, sep: char)
    requires sep !in a
    ensures Split(a + [sep] + b, sep) == [a] + Split(b, sep)
  {
    var s := a + [sep] + b;
    if a == [] {
      assert s[1..] == b;
    } else {
      assert s[0] == a[0] && s[1..] == a[1..] + [sep] + b;
      SplitSeparated(a[1..], b, sep);
      assert [a[0]] + a[1..] == a;
    }
  }

  lemma {:induction false} SplitWithoutSeparator(a: string, sep: char)
    requires sep !in a
    ensures Split(a, sep) == [a]
  {
    if a != [] {
      SplitWithoutSeparator(a[1..], sep);
      assert [a[0]] + a[1..] == a;
    }
  }

  /** `filter(Boolean)` on strings: drops the empty ones and keeps the order. */
  function Compact(xs: seq<string>): (r: seq<string>)
    ensures forall i :: 0 <= i < |r| ==> r[i] != [] && r[i] in xs
  {
    if xs == [] then []
    else (if xs[0] == [] then [] else [xs[0]]) + Compact(xs[1..])
  }

  lemma {:induction false} CompactConcat(xs: seq<string>, ys: seq<string>)
    ensures Compact(xs + ys) == Compact(xs) + Compact(ys)
  {
    if xs == [] {
      assert xs + ys == ys;
    } else {
      assert (xs + ys)[0] == xs[0] && (xs + ys)[1..] == xs[1..] + ys;
      CompactConcat(xs[1..], ys);
    }
  }

  /** `map(t => t.trim())`. */
  function MapTrim(xs: seq<string>): (r: seq<string>)
    ensures |r| == |xs|
    ensures forall i :: 0 <= i < |xs| ==> r[i] == Trim(xs[i])
  {
    seq(|xs|, i requires 0 <= i < |xs| => Trim(xs[i]))
  }

  /** `s.split(",").map(t => t.trim()).filter(Boolean)`: the comma-separated
      list format of tag fields. Every item is non-empty, trimmed and comma-free. */
  function ParseList(s: string): (r: seq<string>)
    ensures forall i :: 0 <= i < |r| ==> r[i] != [] && Trimmed(r[i]) && ',' !in r[i]
  {
    var pieces := Split(s, ',');
    var trimmed := MapTrim(pieces);
    assert forall x :: x in trimmed ==> Trimmed(x) && ',' !in x by {
      forall i | 0 <= i < |pieces| ensures ',' !in Trim(pieces[i]) {
        TrimWithout(pieces[i], ',');
      }
    }
    Compact(trimmed)
  }

  lemma MapTrimConcat(xs: seq<string>, ys: seq<string>)
    ensures MapTrim(xs + ys) == MapTrim(xs) + MapTrim(ys)
  {
  }

  lemma CompactSingle(x: string)
    ensures Compact([x]) == if x == [] then [] else [x]
  {
    assert [x][1..] == [];
  }

  lemma ParseListSeparated(a: string, b: string)
    requires ',' !in a
    ensures ParseList(a + [','] + b) == ParseList(a) + ParseList(b)
  {
    var pb := Split(b, ',');
    assert Split(a + [','] + b, ',') == [a] + pb by {
      SplitSeparated(a, b, ',');
    }
    assert Split(a, ',') == [a] by {
      SplitWithoutSeparator(a, ',');
    }
    MapTrimConcat([a], pb);
    CompactConcat(MapTrim([a]), MapTrim(pb));
  }

  lemma ParseListOnePiece(p: string)
    requires ',' !in p
    ensures ParseList(p) == if Trim(p) == [] then [] else [Trim(p)]
  {
    assert Split(p, ',') == [p] by {
      SplitWithoutSeparator(p, ',');
    }
    assert MapTrim([p]) == [Trim(p)];
    CompactSingle(Trim(p));
  }

  lemma ParseListSingle(w: string, t: string)
    requires AllSpace(w) && Trimmed(t) && ',' !in w && ',' !in t
    ensures ParseList(w + t) == if t == [] then [] else [t]
  {
    assert ',' !in w + t;
    ParseListOnePiece(w + t);
    TrimAfterSpaces(w, t);
  }

  /** A tag list is one the comma-list format can carry unchanged. */
  predicate ListItems(xs: seq<string>)
  {
    forall i :: 0 <= i < |xs| ==> xs[i] != [] && Trimmed(xs[i]) && ',' !in xs[i]
  }

  lemma SpacesHaveNoComma(w: string, t: string)
    requires AllSpace(w) && ',' !in t
    ensures ',' !in w && ',' !in w + t
  {
    forall i | 0 <= i < |w| ensures w[i] != ',' { assert IsSpace(w[i]); }
  }

  /** The first `", "` of a joined list splits it into the first item and
      the rest, which starts with a space. */
  lemma JoinSpaced(w: string, xs: seq<string>)
    requires |xs| >= 2
    ensures w + Join(xs, ", ") == (w + xs[0]) + [','] + (" " + Join(xs[1..], ", "))
  {
  }

  lemma ListItemsTail(xs: seq<string>)
    requires |xs| >= 1 && ListItems(xs)
    ensures ListItems(xs[1..]) && xs[0] != [] && Trimmed(xs[0]) && ',' !in xs[0]
  {
    var rest := xs[1..];
    forall i | 0 <= i < |rest| ensures rest[i] != [] && Trimmed(rest[i]) && ',' !in rest[i] {
      assert rest[i] == xs[i + 1];
    }
  }

  lemma {:induction false} ParseSpacedJoin(w: string, xs: seq<string>)
    requires AllSpace(w) && ListItems(xs)
    ensures ParseList(w + Join(xs, ", ")) == xs
    decreases |xs|, 1
  {
    if |xs| == 0 {
      assert ParseList(w + Join(xs, ", ")) == xs by {
        assert w + Join(xs, ", ") == w + [];
        SpacesHaveNoComma(w, []);
        ParseListSingle(w, []);
      }
    } else if |xs| == 1 {
      ListItemsTail(xs);
      assert xs == [xs[0]];
      ParseSpacedOne(w, xs[0]);
    } else {
      ParseSpacedJoinMore(w, xs);
    }
  }

  lemma ParseSpacedOne(w: string, x: string)
    requires AllSpace(w) && x != [] && Trimmed(x) && ',' !in x
    ensures ParseList(w + Join([x], ", ")) == [x]
  {
    assert Join([x], ", ") == x;
    SpacesHaveNoComma(w, []);
    ParseListSingle(w, x);
  }

  lemma {:induction false} ParseSpacedJoinMore(w: string, xs: seq<string>)
    requires AllSpace(w) && ListItems(xs) && |xs| >= 2
    ensures ParseList(w + Join(xs, ", ")) == xs
    decreases |xs|, 0
  {
    var rest := xs[1..];
    ListItemsTail(xs);
    assert AllSpace(" ");
    ParseSpacedJoin(" ", rest);
    JoinSpaced(w, xs);
    SpacesHaveNoComma(w, xs[0]);
    ParseListSeparated(w + xs[0], " " + Join(rest, ", "));
    ParseListSingle(w, xs[0]);
    assert [xs[0]] + rest == xs;
  }

  /** Writing a list as `join(", ")` and parsing it back gives the list again,
      for items that are non-empty, trimmed and free of commas. */
  lemma ParseJoin(xs: seq<string>)
    requires ListItems(xs)
    ensures ParseList(Join(xs, ", ")) == xs
  {
    ParseSpacedJoin([], xs);
    assert [] + Join(xs, ", ") == Join(xs, ", ");
  }

  // ---------------------------------------------------------------- decimal numbers

  function Digit(d: nat): (c: char)
    requires d < 10
    ensures '0' <= c <= '9'
  {
    ('0' as int + d) as char
  }

  /** The decimal text of a natural number, as template literals print it. */
  function NatToString(n: nat): (r: string)
    ensures |r| >= 1
    ensures forall i :: 0 <= i < |r| ==> '0' <= r[i] <= '9'
    ensures n >= 10 ==> |r| >= 2
  {
    if n < 10 then [Digit(n)] else NatToString(n / 10) + [Digit(n % 10)]
  }

  /** Different numbers print differently. */
  lemma {:induction false} NatToStringInjective(a: nat, b: nat)
    requires NatToString(a) == NatToString(b)
    ensures a == b
  {
    if a >= 10 && b >= 10 {
      var sa, sb := NatToString(a), NatToString(b);
      assert sa[|sa| - 1] == Digit(a % 10) && sb[|sb| - 1] == Digit(b % 10);
      assert sa[..|sa| - 1] == NatToString(a / 10);
      assert sb[..|sb| - 1] == NatToString(b / 10);
      NatToStringInjective(a / 10, b / 10);
    }
  }

  /** The value of a decimal digit. */
  function DigitValue(c: char): (d: nat)
    requires '0' <= c <= '9'
    ensures d < 10 && Digit(d) == c
  {
    c as int - '0' as int
  }

  predicate AllDigits(s: string)
  {
    forall i :: 0 <= i < |s| ==> '0' <= s[i] <= '9'
  }

  /** The number a string of decimal digits denotes, read from the left:
      each digit multiplies what came before by ten. */
  function DecimalValue(s: string): nat
    requires AllDigits(s)
    decreases |s|
  {
    if s == [] then 0 else DecimalValue(s[..|s| - 1]) * 10 + DigitValue(s[|s| - 1])
  }

  /** Reading the printed text back gives the number, and the text has no
      leading zero. */
  lemma {:induction false} NatToStringValue(n: nat)
    ensures AllDigits(NatToString(n))
    ensures DecimalValue(NatToString(n)) == n
    ensures |NatToString(n)| > 1 ==> NatToString(n)[0] != '0'
  {
    var r := NatToString(n);
    if n < 10 {
      assert r[..0] == [];
    } else {
      NatToStringValue(n / 10);
      var h := NatToString(n / 10);
      assert r[..|r| - 1] == h && r[|r| - 1] == Digit(n % 10);
      assert DigitValue(Digit(n % 10)) == n % 10;
      assert r[0] == h[0];
      if |h| == 1 {
        assert n / 10 >= 1 && h == [Digit(n / 10)];
      }
    }
  }

  // ---------------------------------------------------------------- ordering

  /** The default comparison of `Array.prototype.sort` on strings:
      lexicographic by character code, a proper prefix first. */
  predicate Less(a: string, b: string)
    ensures StartsWith(b, a) && a != b ==> Less(a, b)
  {
    if a == [] then b != []
    else if b == [] then false
    else
      assert StartsWith(b, a) && a != b ==> a[0] == b[0] && StartsWith(b[1..], a[1..]) && a[1..] != b[1..] by {
        if StartsWith(b, a) && a != b {
          assert b[..|a|][0] == b[0];
          assert b[1..][..|a| - 1] == b[..|a|][1..];
        }
      }
      a[0] < b[0] || (a[0] == b[0] && Less(a[1..], b[1..]))
  }

  lemma {:induction false} LessIrreflexive(a: string)
    ensures !Less(a, a)
  {
    if a != [] { LessIrreflexive(a[1..]); }
  }

  lemma {:induction false} LessTransitive(a: string, b: string, c: string)
    requires Less(a, b) && Less(b, c)
    ensures Less(a, c)
  {
    if a != [] && b != [] && c != [] && a[0] == b[0] == c[0] {
      LessTransitive(a[1..], b[1..], c[1..]);
    }
  }

  lemma {:induction false} LessTotal(a: string, b: string)
    requires a != b
    ensures Less(a, b) || Less(b, a)
  {
    if a != [] && b != [] && a[0] == b[0] {
      assert a == [a[0]] + a[1..] && b == [b[0]] + b[1..];
      LessTotal(a[1..], b[1..]);
    }
  }

  lemma LessAsymmetric(a: string, b: string)
    requires Less(a, b)
    ensures !Less(b, a)
  {
    if Less(b, a) {
      LessTransitive(a, b, a);
      LessIrreflexive(a);
    }
  }

  /** Ascending without repetitions, as `Array.from(set).sort()` returns. */
  predicate StrictlyAscending(s: seq<string>)
  {
    forall i, j :: 0 <= i < j < |s| ==> Less(s[i], s[j])
  }
}
