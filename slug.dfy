/** `slugify` from the posts API and the candidate slugs tried when a slug is
    already taken. */
module Slug {
  import opened Text

  /** A character `/[^a-z0-9\s-]/g` does not remove. */
  predicate Kept(c: char)
  {
    'a' <= c <= 'z' || '0' <= c <= '9' || IsSpace(c) || c == '-'
  }

  /** A character a slug may hold. */
  predicate SlugChar(c: char)
  {
    'a' <= c <= 'z' || '0' <= c <= '9' || c == '-'
  }

  predicate IsSlug(s: string)
  {
    forall i :: 0 <= i < |s| ==> SlugChar(s[i])
  }

  /** `.replace(/[^a-z0-9\s-]/g, "")`. */
  function Strip(s: string): (r: string)
    ensures |r| <= |s|
    ensures forall i :: 0 <= i < |r| ==> Kept(r[i])
    ensures forall c :: c in r <==> c in s && Kept(c)
  {
    if s == [] then [] else (if Kept(s[0]) then [s[0]] else []) + Strip(s[1..])
  }

  /** `.replace(/\s+/g, "-")`: every maximal run of whitespace becomes one hyphen. */
  function Hyphenate(s: string): (r: string)
    ensures NoSpace(r)
    decreases |s|
  {
    if s == [] then []
    else
      var rest := if IsSpace(s[0]) then TrimStart(s[1..]) else s[1..];
      (if IsSpace(s[0]) then "-" else [s[0]]) + Hyphenate(rest)
  }

  /** `slugify(s)`: lower-case, drop everything but letters, digits,
      whitespace and hyphens, trim, and turn whitespace runs into hyphens. */
  function Slugify(s: string): (r: string)
    ensures IsSlug(r)
  {
    var t := Trim(Strip(Lower(s)));
    TrimKeeps(Strip(Lower(s)));
    HyphenateKeeps(t);
    Hyphenate(t)
  }

  lemma TrimKeeps(s: string)
    requires forall i :: 0 <= i < |s| ==> Kept(s[i])
    ensures forall i :: 0 <= i < |Trim(s)| ==> Kept(Trim(s)[i])
  {
    TrimStartSpec(s);
    TrimEndSpec(TrimStart(s));
  }

  lemma {:induction false} HyphenateKeeps(s: string)
    requires forall i :: 0 <= i < |s| ==> Kept(s[i])
    ensures IsSlug(Hyphenate(s))
    decreases |s|
  {
    if s != [] {
      if IsSpace(s[0]) {
        var u := TrimStart(s[1..]);
        TrimStartSpec(s[1..]);
        HyphenateKeeps(u);
      } else {
        assert SlugChar(s[0]);
        HyphenateKeeps(s[1..]);
      }
    }
  }

  lemma {:induction false} HyphenateWithoutSpace(s: string)
    requires NoSpace(s)
    ensures Hyphenate(s) == s
  {
    if s != [] {
      assert !IsSpace(s[0]);
      HyphenateWithoutSpace(s[1..]);
    }
  }

  lemma {:induction false} StripKept(s: string)
    requires forall i :: 0 <= i < |s| ==> Kept(s[i])
    ensures Strip(s) == s
  {
    if s != [] {
      StripKept(s[1..]);
    }
  }

  /** A slug is already a slug: `slugify` leaves it unchanged. */
  lemma SlugifyIdempotent(s: string)
    ensures Slugify(Slugify(s)) == Slugify(s)
  {
    var r := Slugify(s);
    assert Lower(r) == r;
    StripKept(r);
    assert NoSpace(r);
    TrimOfTrimmed(r);
    HyphenateWithoutSpace(r);
  }

  lemma {:induction false} StripOnlySpaces(s: string)
    requires forall i :: 0 <= i < |s| ==> !SlugChar(s[i])
    ensures AllSpace(Strip(s))
  {
    if s != [] {
      StripOnlySpaces(s[1..]);
    }
  }

  /** A title made only of punctuation and whitespace (after lower-casing)
      gives the empty slug: `slugify` does not fall back to "post". */
  lemma PunctuationOnly(s: string)
    requires forall i :: 0 <= i < |s| ==> !SlugChar(LowerChar(s[i]))
    ensures Slugify(s) == ""
  {
    StripOnlySpaces(Lower(s));
    AllSpaceTrimsToEmpty(Strip(Lower(s)));
  }

  lemma {:induction false} StripConcat(a: string, b: string)
    ensures Strip(a + b) == Strip(a) + Strip(b)
  {
    if a != [] {
      assert (a + b)[0] == a[0] && (a + b)[1..] == a[1..] + b;
      StripConcat(a[1..], b);
    } else {
      assert a + b == b;
    }
  }

  /** On one character: kept or removed. With `StripConcat` this fixes
      `Strip` on every string: the kept characters, in their order. */
  lemma StripOne(c: char)
    ensures Strip([c]) == if Kept(c) then [c] else []
  {
    assert [c][1..] == [];
  }

  /** Removing one character between two runs of kept ones. */
  lemma StripBetween(a: string, p: char, b: string)
    requires forall i :: 0 <= i < |a| ==> Kept(a[i])
    requires forall i :: 0 <= i < |b| ==> Kept(b[i])
    requires !Kept(p)
    ensures Strip(a + [p] + b) == a + b
  {
    StripConcat(a + [p], b);
    StripConcat(a, [p]);
    StripKept(a);
    StripKept(b);
    assert Strip([p]) == [];
    assert Strip(a + [p]) == a;
  }

  lemma {:induction false} HyphenateWord(a: string, b: string)
    requires NoSpace(a)
    ensures Hyphenate(a + b) == a + Hyphenate(b)
  {
    if a != [] {
      assert (a + b)[0] == a[0] && (a + b)[1..] == a[1..] + b;
      assert !IsSpace(a[0]);
      HyphenateWord(a[1..], b);
    } else {
      assert a + b == b;
    }
  }

  /** A maximal run of white space, however long and whatever its
      characters, becomes one hyphen. With `HyphenateWithoutSpace` this fixes
      `Hyphenate` on every string. */
  lemma {:induction false} HyphenateRun(a: string, w: string, b: string)
    requires NoSpace(a) && w != [] && AllSpace(w) && (b == [] || !IsSpace(b[0]))
    ensures Hyphenate(a + w + b) == a + "-" + Hyphenate(b)
  {
    var s := a + w + b;
    if a == [] {
      assert s == w + b;
      assert s[0] == w[0] && s[1..] == w[1..] + b;
      assert TrimStart(w[1..] + b) == b by {
        TrimStartAfterSpaces(w[1..], b);
        TrimStartAtNonSpace(b);
      }
    } else {
      assert s[0] == a[0] && !IsSpace(a[0]);
      assert s[1..] == a[1..] + w + b;
      HyphenateRun(a[1..], w, b);
    }
  }

  /** Two slugs around white space hold only kept, non-capital characters. */
  lemma SpacedSlugsKept(a: string, w: string, b: string)
    requires IsSlug(a) && IsSlug(b) && AllSpace(w)
    ensures forall i :: 0 <= i < |a + w + b| ==> Kept((a + w + b)[i]) && !('A' <= (a + w + b)[i] <= 'Z')
  {
    var s := a + w + b;
    forall i | 0 <= i < |s|
      ensures Kept(s[i]) && !('A' <= s[i] <= 'Z')
    {
      if i < |a| {
        assert s[i] == a[i];
      } else if i < |a| + |w| {
        assert s[i] == w[i - |a|];
      } else {
        assert s[i] == b[i - |a| - |w|];
      }
    }
  }

  /** Neither lower-casing nor stripping changes a string of kept, non-capital characters. */
  lemma LowerStripKept(s: string)
    requires forall i :: 0 <= i < |s| ==> Kept(s[i]) && !('A' <= s[i] <= 'Z')
    ensures Strip(Lower(s)) == s
  {
    assert Lower(s) == s;
    StripKept(s);
  }

  /** Any run of white space between two slug words, such as three spaces or
      a tab and a line feed, gives one hyphen. */
  lemma SpacedSlugs(a: string, w: string, b: string)
    requires a != [] && b != [] && IsSlug(a) && IsSlug(b) && w != [] && AllSpace(w)
    ensures Slugify(a + w + b) == a + "-" + b
  {
    var s := a + w + b;
    SpacedSlugsKept(a, w, b);
    LowerStripKept(s);
    SpacedSlugsTrimmed(a, w, b);
    SpacedSlugsHyphenated(a, w, b);
    assert Trim(Strip(Lower(s))) == s;
  }

  /** Two slugs around anything: `trim` has nothing to remove. */
  lemma SpacedSlugsTrimmed(a: string, w: string, b: string)
    requires a != [] && b != [] && IsSlug(a) && IsSlug(b)
    ensures Trim(a + w + b) == a + w + b
  {
    var s := a + w + b;
    assert s[0] == a[0] && s[|s| - 1] == b[|b| - 1];
    assert SlugChar(a[0]) && SlugChar(b[|b| - 1]);
    TrimOfTrimmed(s);
  }

  /** Two slugs around a white-space run: the run becomes one hyphen. */
  lemma SpacedSlugsHyphenated(a: string, w: string, b: string)
    requires a != [] && b != [] && IsSlug(a) && IsSlug(b) && w != [] && AllSpace(w)
    ensures Hyphenate(a + w + b) == a + "-" + b
  {
    assert SlugChar(b[0]);
    HyphenateRun(a, w, b);
    HyphenateWithoutSpace(b);
  }

  /** A slug is its own `slugify`. */
  lemma SlugifyOfSlug(s: string)
    requires IsSlug(s)
    ensures Slugify(s) == s
  {
    assert Lower(s) == s;
    StripKept(s);
    assert NoSpace(s);
    TrimOfTrimmed(s);
    HyphenateWithoutSpace(s);
  }

  lemma TrimWords(la: string, lb: string)
    requires la != [] && lb != [] && !IsSpace(la[0]) && !IsSpace(lb[|lb| - 1])
    ensures Trim(la + ([' '] + lb)) == la + ([' '] + lb)
  {
    var w := la + ([' '] + lb);
    assert w[0] == la[0];
    assert w[|w| - 1] == lb[|lb| - 1];
    TrimOfTrimmed(w);
  }

  lemma HyphenateWords(la: string, lb: string)
    requires la != [] && lb != [] && IsSlug(la) && IsSlug(lb)
    ensures Hyphenate(la + ([' '] + lb)) == la + "-" + lb
  {
    HyphenateWithoutSpace(lb);
    assert SlugChar(lb[0]);
    assert TrimStart(lb) == lb;
    assert ([' '] + lb)[1..] == lb;
    assert Hyphenate([' '] + lb) == "-" + lb;
    HyphenateWord(la, [' '] + lb);
  }

  lemma SpacedWords(la: string, lb: string)
    requires la != [] && lb != [] && IsSlug(la) && IsSlug(lb)
    ensures Hyphenate(Trim(la + ([' '] + lb))) == la + "-" + lb
  {
    assert SlugChar(la[0]) && SlugChar(lb[|lb| - 1]);
    TrimWords(la, lb);
    HyphenateWords(la, lb);
  }

  /** Two words separated by punctuation and a space, such as "Hello, World!",
      become the two lower-cased words joined by a hyphen. */
  lemma TwoWords(a: string, p: char, b: string, q: char)
    requires a != [] && b != [] && IsSlug(Lower(a)) && IsSlug(Lower(b))
    requires !Kept(p) && !('A' <= p <= 'Z') && !Kept(q) && !('A' <= q <= 'Z')
    ensures Slugify(a + [p] + ([' '] + b) + [q]) == Lower(a) + "-" + Lower(b)
  {
    var la, lb := Lower(a), Lower(b);
    var s := a + [p] + ([' '] + b) + [q];
    var lowered := la + [p] + ([' '] + lb) + [q];
    assert Lower(s) == lowered;
    StripBetween(la, p, [' '] + lb);
    StripConcat(la + [p] + ([' '] + lb), [q]);
    assert Strip([q]) == [];
    assert Strip(lowered) == la + ([' '] + lb);
    SpacedWords(la, lb);
  }

  /** The fallback title "post" is its own slug. */
  lemma FallbackSlug()
    ensures Slugify("post") == "post"
  {
    SlugifyOfSlug("post");
  }

  /** The `k`-th slug tried for `base`: `base` itself, then `${base}-${k}`. */
  function Candidate(base: string, k: nat): (r: string)
    ensures StartsWith(r, base)
    ensures k > 0 ==> |r| > |base| + 1 && r[|base|] == '-'
  {
    if k == 0 then base else base + "-" + NatToString(k)
  }

  /** Different counters give different candidates, so the search never
      tries the same slug twice. */
  lemma CandidateInjective(base: string, j: nat, k: nat)
    requires Candidate(base, j) == Candidate(base, k)
    ensures j == k
  {
    if j != 0 && k != 0 {
      var a := Candidate(base, j);
      assert NatToString(j) == a[|base| + 1..];
      assert NatToString(k) == a[|base| + 1..];
      NatToStringInjective(j, k);
    }
  }

  /** The first `n` candidates. */
  ghost function Tried(base: string, n: nat): set<string>
  {
    set j | 0 <= j < n :: Candidate(base, j)
  }

  lemma {:induction false} TriedSize(base: string, n: nat)
    ensures |Tried(base, n)| == n
  {
    if n > 0 {
      TriedSize(base, n - 1);
      assert Tried(base, n) == Tried(base, n - 1) + {Candidate(base, n - 1)};
      if Candidate(base, n - 1) in Tried(base, n - 1) {
        var j :| 0 <= j < n - 1 && Candidate(base, j) == Candidate(base, n - 1);
        CandidateInjective(base, j, n - 1);
      }
    }
  }

  /** `k` is where the search stops: candidate `k` is free and every earlier
      one is taken. */
  predicate FirstFree(base: string, taken: set<string>, k: nat)
  {
    Candidate(base, k) !in taken && forall j :: 0 <= j < k ==> Candidate(base, j) in taken
  }

  /** When the taken slugs are exactly the first `n` candidates (the slugs
      of `n` earlier posts with the same title), the next post gets the
      `n`-th: posts sharing a title are numbered in creation order. */
  lemma {:induction false} FirstFreeAfter(base: string, n: nat)
    ensures FirstFree(base, Tried(base, n), n)
  {
    if Candidate(base, n) in Tried(base, n) {
      var j :| 0 <= j < n && Candidate(base, j) == Candidate(base, n);
      CandidateInjective(base, j, n);
    }
  }

  /** The second post with a title gets `${base}-1`. */
  lemma SecondPost(base: string)
    ensures FirstFree(base, {base}, 1) && Candidate(base, 1) == base + "-1"
  {
    assert NatToString(1) == "1";
    assert |Candidate(base, 1)| > |base|;
  }

  /** The search has one possible outcome. */
  lemma FirstFreeUnique(base: string, taken: set<string>, j: nat, k: nat)
    requires FirstFree(base, taken, j) && FirstFree(base, taken, k)
    ensures j == k
  {
  }

  /** The search ends within as many steps as there are taken slugs. */
  lemma {:induction false} FirstFreeBound(base: string, taken: set<string>, k: nat)
    requires FirstFree(base, taken, k)
    ensures k <= |taken|
  {
    TriedSize(base, k);
    assert Tried(base, k) <= taken;
    SubsetSize(Tried(base, k), taken);
  }

  lemma {:induction false} SubsetSize<T>(a: set<T>, b: set<T>)
    requires a <= b
    ensures |a| <= |b|
  {
    assert b == a + (b - a);
  }
}
