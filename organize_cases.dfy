/**
 * The case organiser: `slugify`, and the decision rule of `organize`, which
 * moves each PDF file of a directory into the first case whose patterns it
 * mentions. The directory listing and the parsed case map are inputs; the
 * moves, and the names reported as unmatched, are returned instead of being
 * carried out on the filesystem.
 */
module OrganizeCases {
  import opened Wrappers
  import opened Text

  // ---------------------------------------------------------------------------
  // slugify
  // ---------------------------------------------------------------------------

  /** A character the first `replace` keeps: `[a-z0-9]`. */
  predicate IsSlugAlnum(c: char) { IsLower(c) || IsDigit(c) }

  /** A character a slug may contain: `[a-z0-9_]`. */
  predicate IsSlugChar(c: char) { IsSlugAlnum(c) || c == '_' }

  predicate AllSlugChars(s: string)
  {
    forall i :: 0 <= i < |s| ==> IsSlugChar(s[i])
  }

  /** No two neighbouring `_`. */
  predicate NoDoubleUnderscore(s: string)
  {
    forall i :: 0 < i < |s| ==> !(s[i - 1] == '_' && s[i] == '_')
  }

  /** The shape of every slug: `[a-z0-9_]` only, no `_` at either end, no `__`. */
  predicate IsSlug(s: string)
  {
    && AllSlugChars(s)
    && (s == [] || (s[0] != '_' && s[|s| - 1] != '_'))
    && NoDoubleUnderscore(s)
  }

  /** The `[a-z0-9]` characters of `s`, in order. */
  function Alnums(s: string): string
  {
    if s == [] then [] else (if IsSlugAlnum(s[0]) then [s[0]] else []) + Alnums(s[1..])
  }

  /** `s` with every `_` deleted. */
  function DropUnderscores(s: string): string
  {
    if s == [] then [] else (if s[0] != '_' then [s[0]] else []) + DropUnderscores(s[1..])
  }

  lemma {:induction false} AlnumsAppend(a: string, b: string)
    ensures Alnums(a + b) == Alnums(a) + Alnums(b)
  {
    if a != [] {
      assert (a + b)[1..] == a[1..] + b;
      AlnumsAppend(a[1..], b);
    } else {
      assert a + b == b;
    }
  }

  lemma {:induction false} DropUnderscoresAppend(a: string, b: string)
    ensures DropUnderscores(a + b) == DropUnderscores(a) + DropUnderscores(b)
  {
    if a != [] {
      assert (a + b)[1..] == a[1..] + b;
      DropUnderscoresAppend(a[1..], b);
    } else {
      assert a + b == b;
    }
  }

  /** `s` without the run of characters outside `[a-z0-9]` that starts it. */
  function SkipSeparators(s: string): (r: string)
    ensures |r| <= |s| && r == s[|s| - |r|..]
  {
    if s == [] || IsSlugAlnum(s[0]) then s else SkipSeparators(s[1..])
  }

  /** Only characters outside `[a-z0-9]` are skipped. */
  lemma {:induction false} SkipSeparatorsSkipsSeparators(s: string)
    ensures var r := SkipSeparators(s);
            forall i :: 0 <= i < |s| - |r| ==> !IsSlugAlnum(s[i])
  {
    if s != [] && !IsSlugAlnum(s[0]) {
      SkipSeparatorsSkipsSeparators(s[1..]);
      var r := SkipSeparators(s);
      forall i | 0 < i < |s| - |r|
        ensures !IsSlugAlnum(s[i])
      {
        assert s[i] == s[1..][i - 1];
      }
    }
  }

  /** The whole run is skipped: what is left is empty or starts with `[a-z0-9]`. */
  lemma {:induction false} SkipSeparatorsSkipsRun(s: string)
    ensures var r := SkipSeparators(s);
            r == [] || IsSlugAlnum(r[0])
  {
    if s != [] && !IsSlugAlnum(s[0]) {
      SkipSeparatorsSkipsRun(s[1..]);
    }
  }

  /** Skipping a separator run loses no `[a-z0-9]` character. */
  lemma {:induction false} SkipSeparatorsKeepsAlnums(s: string)
    ensures Alnums(SkipSeparators(s)) == Alnums(s)
  {
    if s != [] && !IsSlugAlnum(s[0]) {
      SkipSeparatorsKeepsAlnums(s[1..]);
      assert Alnums(s) == Alnums(s[1..]);
    }
  }

  /**
   * `s.replace(/[^a-z0-9]+/g, '_')`: every maximal run of characters outside
   * `[a-z0-9]` becomes a single `_`; the `[a-z0-9]` characters stay, in order.
   */
  function CollapseRuns(s: string): (r: string)
    ensures r == [] <==> s == []
    decreases |s|
  {
    if s == [] then []
    else if IsSlugAlnum(s[0]) then [s[0]] + CollapseRuns(s[1..])
    else "_" + CollapseRuns(SkipSeparators(s[1..]))
  }

  /** The collapsed string holds only `[a-z0-9_]`. */
  lemma {:induction false} CollapseRunsChars(s: string)
    ensures AllSlugChars(CollapseRuns(s))
    decreases |s|
  {
    if s != [] {
      var rest := if IsSlugAlnum(s[0]) then s[1..] else SkipSeparators(s[1..]);
      CollapseRunsChars(rest);
      var r := CollapseRuns(s);
      assert r[1..] == CollapseRuns(rest);
      forall i | 0 < i < |r| ensures IsSlugChar(r[i]) {
        assert r[i] == r[1..][i - 1];
      }
    }
  }

  /** The collapsed string starts with `_` exactly when the input starts outside `[a-z0-9]`. */
  lemma CollapseRunsFirst(s: string)
    requires s != []
    ensures CollapseRuns(s)[0] == '_' <==> !IsSlugAlnum(s[0])
  {
  }

  /** The collapsed string ends with `_` exactly when the input ends outside `[a-z0-9]`. */
  lemma {:induction false} CollapseRunsLast(s: string)
    requires s != []
    ensures var r := CollapseRuns(s);
            r[|r| - 1] == '_' <==> !IsSlugAlnum(s[|s| - 1])
    decreases |s|
  {
    var r := CollapseRuns(s);
    var rest := if IsSlugAlnum(s[0]) then s[1..] else SkipSeparators(s[1..]);
    assert r[1..] == CollapseRuns(rest);
    if rest != [] {
      CollapseRunsLast(rest);
      assert rest[|rest| - 1] == s[|s| - 1];
    } else if !IsSlugAlnum(s[0]) {
      SkipSeparatorsSkipsSeparators(s[1..]);
      assert |s| == 1 || !IsSlugAlnum(s[1..][|s| - 2]);
    }
  }

  /** The collapsed string never holds `__`. */
  lemma {:induction false} CollapseRunsNoDouble(s: string)
    ensures NoDoubleUnderscore(CollapseRuns(s))
    decreases |s|
  {
    if s != [] {
      var rest := if IsSlugAlnum(s[0]) then s[1..] else SkipSeparators(s[1..]);
      CollapseRunsNoDouble(rest);
      var r := CollapseRuns(s);
      assert r[1..] == CollapseRuns(rest);
      if !IsSlugAlnum(s[0]) && rest != [] {
        SkipSeparatorsSkipsRun(s[1..]);
        CollapseRunsFirst(rest);
      }
      forall i | 1 < i < |r| ensures !(r[i - 1] == '_' && r[i] == '_') {
        assert r[i - 1] == r[1..][i - 2] && r[i] == r[1..][i - 1];
      }
    }
  }

  /** Collapsing keeps the `[a-z0-9]` characters, in order, and adds only `_`. */
  lemma {:induction false} CollapseRunsKeepsAlnums(s: string)
    ensures DropUnderscores(CollapseRuns(s)) == Alnums(s)
    decreases |s|
  {
    if s == [] {
    } else if IsSlugAlnum(s[0]) {
      CollapseRunsKeepsAlnums(s[1..]);
      var rest := CollapseRuns(s[1..]);
      assert ([s[0]] + rest)[1..] == rest;
    } else {
      var skipped := SkipSeparators(s[1..]);
      SkipSeparatorsKeepsAlnums(s[1..]);
      CollapseRunsKeepsAlnums(skipped);
      var rest := CollapseRuns(skipped);
      assert ("_" + rest)[1..] == rest;
    }
  }

  /** `s` without the `_` characters that start it. */
  function DropLeadingUnderscores(s: string): (r: string)
    ensures |r| <= |s|
    ensures r == [] || r[0] != '_'
  {
    if s != [] && s[0] == '_' then DropLeadingUnderscores(s[1..]) else s
  }

  /** `s` without the `_` characters that end it. */
  function DropTrailingUnderscores(s: string): (r: string)
    ensures |r| <= |s|
    ensures r == [] || r[|r| - 1] != '_'
  {
    if s != [] && s[|s| - 1] == '_' then DropTrailingUnderscores(s[..|s| - 1]) else s
  }

  /** `s.replace(/^_+|_+$/g, '')`: the `_` at both ends removed. */
  function TrimUnderscores(s: string): string
  {
    DropTrailingUnderscores(DropLeadingUnderscores(s))
  }

  /** A collapsed string stays collapsed when its first character is dropped. */
  lemma CollapsedTail(s: string)
    requires s != [] && AllSlugChars(s) && NoDoubleUnderscore(s)
    ensures AllSlugChars(s[1..]) && NoDoubleUnderscore(s[1..])
  {
    forall i | 0 <= i < |s| - 1 ensures IsSlugChar(s[1..][i]) {
      assert s[1..][i] == s[i + 1];
    }
    forall i | 0 < i < |s| - 1 ensures !(s[1..][i - 1] == '_' && s[1..][i] == '_') {
      assert s[1..][i - 1] == s[i] && s[1..][i] == s[i + 1];
    }
  }

  /** A collapsed string stays collapsed when its last character is dropped. */
  lemma CollapsedFront(s: string)
    requires s != [] && AllSlugChars(s) && NoDoubleUnderscore(s)
    ensures AllSlugChars(s[..|s| - 1]) && NoDoubleUnderscore(s[..|s| - 1])
  {
  }

  /** Dropping leading `_` keeps a collapsed string collapsed, removes no other character, and keeps its end. */
  lemma {:induction false} DropLeadingKeeps(s: string)
    requires AllSlugChars(s) && NoDoubleUnderscore(s)
    ensures var r := DropLeadingUnderscores(s);
            AllSlugChars(r) && NoDoubleUnderscore(r) && DropUnderscores(r) == DropUnderscores(s)
  {
    if s != [] && s[0] == '_' {
      CollapsedTail(s);
      DropLeadingKeeps(s[1..]);
    }
  }

  /** Dropping trailing `_` keeps a collapsed string collapsed, removes no other character, and keeps its start. */
  lemma {:induction false} DropTrailingKeeps(s: string)
    requires AllSlugChars(s) && NoDoubleUnderscore(s)
    ensures var r := DropTrailingUnderscores(s);
            && AllSlugChars(r) && NoDoubleUnderscore(r) && DropUnderscores(r) == DropUnderscores(s)
            && (r != [] ==> r[0] == s[0])
  {
    if s != [] && s[|s| - 1] == '_' {
      var front := s[..|s| - 1];
      CollapsedFront(s);
      DropTrailingKeeps(front);
      assert s == front + ['_'];
      DropUnderscoresAppend(front, ['_']);
    }
  }

  /** Trimming a collapsed string leaves a slug and removes only `_`. */
  lemma TrimUnderscoresMakesSlug(c: string)
    requires AllSlugChars(c) && NoDoubleUnderscore(c)
    ensures IsSlug(TrimUnderscores(c))
    ensures DropUnderscores(TrimUnderscores(c)) == DropUnderscores(c)
  {
    DropLeadingKeeps(c);
    DropTrailingKeeps(DropLeadingUnderscores(c));
  }

  /** `slugify(name)`: lower-case, collapse every run outside `[a-z0-9]` to `_`, trim `_` at both ends. */
  function Slugify(name: string): string
  {
    TrimUnderscores(CollapseRuns(ToLower(name)))
  }

  /**
   * Every slug is one: only `[a-z0-9_]`, no `_` at either end, no `__`; and
   * deleting its `_` gives exactly the `[a-z0-9]` characters of the
   * lower-cased name, in order.
   */
  lemma SlugifyShape(name: string)
    ensures IsSlug(Slugify(name))
    ensures DropUnderscores(Slugify(name)) == Alnums(ToLower(name))
  {
    CollapseRunsChars(ToLower(name));
    CollapseRunsNoDouble(ToLower(name));
    CollapseRunsKeepsAlnums(ToLower(name));
    TrimUnderscoresMakesSlug(CollapseRuns(ToLower(name)));
  }

  /** `CollapseRuns` leaves a string that is already collapsed unchanged. */
  lemma {:induction false} CollapseFixpoint(s: string)
    requires AllSlugChars(s) && NoDoubleUnderscore(s)
    ensures CollapseRuns(s) == s
    decreases |s|
  {
    if s != [] {
      assert AllSlugChars(s[1..]) && NoDoubleUnderscore(s[1..]);
      CollapseFixpoint(s[1..]);
      if !IsSlugAlnum(s[0]) {
        assert s[1..] == [] || IsSlugAlnum(s[1]);
        assert SkipSeparators(s[1..]) == s[1..];
      }
      assert CollapseRuns(s) == [s[0]] + s[1..];
    }
  }

  /** A slug is its own slug. */
  lemma SlugFixpoint(s: string)
    requires IsSlug(s)
    ensures Slugify(s) == s
  {
    ToLowerFixpoint(s);
    CollapseFixpoint(s);
    assert DropLeadingUnderscores(s) == s;
    assert DropTrailingUnderscores(s) == s;
  }

  /** `slugify` is idempotent. */
  lemma SlugifyIdempotent(name: string)
    ensures Slugify(Slugify(name)) == Slugify(name)
  {
    SlugifyShape(name);
    SlugFixpoint(Slugify(name));
  }

  /** Skipping a separator run never reaches past a following `[a-z0-9]` character. */
  lemma {:induction false} SkipSeparatorsAppend(a: string, b: string)
    requires b != [] && IsSlugAlnum(b[0])
    ensures SkipSeparators(a + b) == SkipSeparators(a) + b
  {
    if a == [] {
      assert a + b == b;
    } else if !IsSlugAlnum(a[0]) {
      assert (a + b)[1..] == a[1..] + b;
      SkipSeparatorsAppend(a[1..], b);
    }
  }

  /** Runs never merge across a `[a-z0-9]` character: collapsing distributes over such a cut. */
  lemma {:induction false} CollapseAppend(a: string, b: string)
    requires b != [] && IsSlugAlnum(b[0])
    ensures CollapseRuns(a + b) == CollapseRuns(a) + CollapseRuns(b)
    decreases |a|
  {
    if a == [] {
      assert a + b == b;
    } else if IsSlugAlnum(a[0]) {
      assert (a + b)[1..] == a[1..] + b;
      CollapseAppend(a[1..], b);
    } else {
      assert (a + b)[1..] == a[1..] + b;
      SkipSeparatorsAppend(a[1..], b);
      CollapseAppend(SkipSeparators(a[1..]), b);
    }
  }

  /** No character of `w` is in `[a-z0-9]`: `w` is a run the first `replace` matches. */
  predicate IsSeparatorRun(w: string)
  {
    forall i :: 0 <= i < |w| ==> !IsSlugAlnum(w[i])
  }

  /** A separator run is skipped whole. */
  lemma {:induction false} SkipAllSeparators(w: string)
    requires IsSeparatorRun(w)
    ensures SkipSeparators(w) == []
  {
    if w != [] {
      assert IsSeparatorRun(w[1..]) by {
        forall i | 0 <= i < |w[1..]| ensures !IsSlugAlnum(w[1..][i]) {
          assert w[1..][i] == w[i + 1];
        }
      }
      SkipAllSeparators(w[1..]);
    }
  }

  /** Skipping from a string that ends with `[a-z0-9]` stops inside it, before anything appended. */
  lemma {:induction false} SkipSeparatorsBeforeAlnum(x: string, w: string)
    requires x != [] && IsSlugAlnum(x[|x| - 1])
    ensures SkipSeparators(x + w) == SkipSeparators(x) + w
    ensures SkipSeparators(x) != [] && IsSlugAlnum(SkipSeparators(x)[|SkipSeparators(x)| - 1])
  {
    if !IsSlugAlnum(x[0]) {
      assert |x| > 1;
      assert (x + w)[1..] == x[1..] + w;
      SkipSeparatorsBeforeAlnum(x[1..], w);
    }
  }

  /** A separator run on its own collapses to a single `_`. */
  lemma CollapseSeparatorRun(w: string)
    requires w != [] && IsSeparatorRun(w)
    ensures CollapseRuns(w) == "_"
  {
    SkipAllSeparators(w[1..]);
  }

  /** Regrouping a three-part concatenation. */
  lemma AppendAssoc(x: string, y: string, z: string)
    ensures x + (y + z) == (x + y) + z
  {
  }

  /** A separator run after `[a-z0-9]` (or at the very start) collapses to one `_` at the end. */
  lemma {:induction false} CollapseTrailingSeparators(a: string, w: string)
    requires a == [] || IsSlugAlnum(a[|a| - 1])
    requires w != [] && IsSeparatorRun(w)
    ensures CollapseRuns(a + w) == CollapseRuns(a) + "_"
    decreases |a|
  {
    if a == [] {
      assert a + w == w;
      CollapseSeparatorRun(w);
    } else {
      var t := a[1..];
      assert (a + w)[0] == a[0] && (a + w)[1..] == t + w;
      var head := if IsSlugAlnum(a[0]) then [a[0]] else "_";
      var rest := if IsSlugAlnum(a[0]) then t else SkipSeparators(t);
      if !IsSlugAlnum(a[0]) {
        assert t != [] && t[|t| - 1] == a[|a| - 1];
        SkipSeparatorsBeforeAlnum(t, w);
      }
      assert rest == [] || IsSlugAlnum(rest[|rest| - 1]);
      CollapseTrailingSeparators(rest, w);
      assert CollapseRuns(a + w) == head + CollapseRuns(rest + w);
      assert CollapseRuns(a) == head + CollapseRuns(rest);
      AppendAssoc(head, CollapseRuns(rest), "_");
    }
  }

  /**
   * Every separator run between two `[a-z0-9]` characters becomes exactly one
   * `_`: the words on either side are collapsed on their own and joined by it.
   */
  lemma SeparatorBecomesUnderscore(a: string, w: string, b: string)
    requires a != [] && IsSlugAlnum(a[|a| - 1])
    requires w != [] && IsSeparatorRun(w)
    requires b != [] && IsSlugAlnum(b[0])
    ensures CollapseRuns(a + w + b) == CollapseRuns(a) + "_" + CollapseRuns(b)
  {
    CollapseAppend(a + w, b);
    CollapseTrailingSeparators(a, w);
  }

  /**
   * Two slugs joined by a run of separators (none of them an upper-case letter,
   * which would lower-case to a letter) slug to the two slugs joined by one
   * `_`: `slugify` keeps words apart rather than gluing them together.
   */
  lemma SlugifyJoinsWords(a: string, w: string, b: string)
    requires a != [] && IsSlug(a) && b != [] && IsSlug(b)
    requires w != [] && IsSeparatorRun(w) && forall i :: 0 <= i < |w| ==> !IsUpper(w[i])
    ensures Slugify(a + w + b) == a + "_" + b
  {
    var c := a + "_" + b;
    assert ToLower(a + w + b) == a + w + b by {
      ToLowerFixpoint(a);
      ToLowerFixpoint(w);
      ToLowerFixpoint(b);
      ToLowerAppend(a, w);
      ToLowerAppend(a + w, b);
    }
    assert CollapseRuns(a + w + b) == c by {
      assert IsSlugChar(a[|a| - 1]) && IsSlugChar(b[0]);
      SeparatorBecomesUnderscore(a, w, b);
      CollapseFixpoint(a);
      CollapseFixpoint(b);
    }
    assert TrimUnderscores(c) == c by {
      assert c[0] == a[0] && c[|c| - 1] == b[|b| - 1];
      assert DropLeadingUnderscores(c) == c;
      DropTrailingNone(c);
    }
  }

  /** Leading `_` are stripped only up to the first other character. */
  lemma {:induction false} DropLeadingAppend(p: string, q: string)
    requires DropUnderscores(p) != []
    ensures DropLeadingUnderscores(p + q) == DropLeadingUnderscores(p) + q
  {
    assert p != [];
    if p[0] == '_' {
      assert (p + q)[1..] == p[1..] + q;
      DropLeadingAppend(p[1..], q);
    }
  }

  /** Leading `_` stop before the last character of a string that has something besides `_`. */
  lemma {:induction false} DropLeadingKeepsLast(p: string)
    requires DropUnderscores(p) != []
    ensures var y := DropLeadingUnderscores(p);
            y != [] && y[|y| - 1] == p[|p| - 1]
  {
    assert p != [];
    if p[0] == '_' {
      assert DropUnderscores(p) == DropUnderscores(p[1..]);
      DropLeadingKeepsLast(p[1..]);
    }
  }

  /** A name whose lower-cased form ends with `.pdf` lower-cases to its lower-cased stem, `.` and `pdf`. */
  lemma LoweredPdfName(name: string)
    requires EndsWith(ToLower(name), ".pdf")
    ensures ToLower(name) == (ToLower(name[..|name| - 4]) + ".") + "pdf"
  {
    var stem, ext := name[..|name| - 4], name[|name| - 4..];
    assert name == stem + ext;
    ToLowerAppend(stem, ext);
    assert ToLower(ext) == ToLower(name)[|name| - 4..] == ".pdf";
    assert ".pdf" == "." + "pdf";
    AppendAssoc(ToLower(stem), ".", "pdf");
  }

  /** Collapsing `u.pdf`: the collapsed `u.` ends with `_`, and `pdf` follows it unchanged. */
  lemma CollapsedPdfName(u: string)
    requires Alnums(u) != []
    ensures var p := CollapseRuns(u + ".");
            && CollapseRuns((u + ".") + "pdf") == p + "pdf"
            && DropUnderscores(p) != [] && p[|p| - 1] == '_'
  {
    CollapseAppend(u + ".", "pdf");
    assert CollapseRuns("pdf") == "pdf";
    CollapseRunsKeepsAlnums(u + ".");
    AlnumsAppend(u, ".");
    assert Alnums(".") == [];
    CollapseRunsLast(u + ".");
  }

  /** A string ending in `_`, followed by `pdf`, ends with `_pdf`. */
  lemma EndsWithUnderscorePdf(y: string)
    requires y != [] && y[|y| - 1] == '_'
    ensures EndsWith(y + "pdf", "_pdf")
  {
    var t := y + "pdf";
    assert t[|t| - 4..] == "_pdf" by {
      assert t[|t| - 4] == '_';
      assert t[|t| - 3] == 'p';
      assert t[|t| - 2] == 'd';
      assert t[|t| - 1] == 'f';
    }
  }

  /** A string of slug characters holds no `.`. */
  lemma AllSlugCharsNoDot(s: string)
    requires AllSlugChars(s)
    ensures '.' !in s
  {
  }

  /** A string that does not end with `_` has no trailing `_` to drop. */
  lemma DropTrailingNone(t: string)
    requires t != [] && t[|t| - 1] != '_'
    ensures DropTrailingUnderscores(t) == t
  {
  }

  /** Trimming `p + q` strips only the leading `_` of `p` when `p` has another character and `q` does not end with `_`. */
  lemma TrimKeepsTail(p: string, q: string)
    requires DropUnderscores(p) != [] && q != [] && q[|q| - 1] != '_'
    ensures TrimUnderscores(p + q) == DropLeadingUnderscores(p) + q
  {
    var t := DropLeadingUnderscores(p) + q;
    assert DropLeadingUnderscores(p + q) == t by {
      DropLeadingAppend(p, q);
    }
    assert DropTrailingUnderscores(t) == t by {
      assert t[|t| - 1] == q[|q| - 1];
      DropTrailingNone(t);
    }
  }

  /** Trimming a collapsed `…_pdf` keeps the `_pdf` at its end. */
  lemma TrimmedPdfName(p: string)
    requires DropUnderscores(p) != [] && p != [] && p[|p| - 1] == '_'
    ensures EndsWith(TrimUnderscores(p + "pdf"), "_pdf")
  {
    var y := DropLeadingUnderscores(p);
    assert TrimUnderscores(p + "pdf") == y + "pdf" by {
      TrimKeepsTail(p, "pdf");
    }
    assert y != [] && y[|y| - 1] == '_' by {
      DropLeadingKeepsLast(p);
    }
    EndsWithUnderscorePdf(y);
  }

  /**
   * The new name of a PDF whose stem has a letter or digit ends in `_pdf`:
   * the `.` before the extension becomes `_`, and no `.` is left.
   */
  lemma PdfSlug(name: string)
    requires EndsWith(ToLower(name), ".pdf")
    requires Alnums(ToLower(name[..|name| - 4])) != []
    ensures '.' !in Slugify(name)
    ensures EndsWith(Slugify(name), "_pdf")
  {
    var u := ToLower(name[..|name| - 4]);
    LoweredPdfName(name);
    CollapsedPdfName(u);
    TrimmedPdfName(CollapseRuns(u + "."));
    SlugifyShape(name);
  }

  // ---------------------------------------------------------------------------
  // organize
  // ---------------------------------------------------------------------------

  /** One directory entry, as `readdir` names it and `stat` describes it. */
  datatype Entry = Entry(name: string, isDirectory: bool)

  /** One case of the case map: the case name and the name fragments that select it. */
  datatype Case = Case(name: string, patterns: seq<string>)

  /** Renaming `entry` into the sub-directory `caseName` under the name `newName`. */
  datatype Move = Move(entry: string, caseName: string, newName: string)

  /** What `organize` does with one entry. */
  datatype Decision = Skipped | Unmatched | Moved(move: Move)

  /** An entry `organize` tries to place: a file whose lower-cased name ends with `.pdf`. */
  predicate IsCandidate(e: Entry)
  {
    !e.isDirectory && EndsWith(ToLower(e.name), ".pdf")
  }

  /** `patterns.some((p) => entry.includes(p))`. */
  predicate CaseMatches(c: Case, name: string)
  {
    exists p | p in c.patterns :: Includes(name, p)
  }

  /** The position of the first case, in map order, that matches `name`. */
  function FirstMatch(cases: seq<Case>, name: string): (r: Option<nat>)
    ensures r.Some? ==> r.value < |cases| && CaseMatches(cases[r.value], name)
    ensures r.Some? ==> forall j :: 0 <= j < r.value ==> !CaseMatches(cases[j], name)
    ensures r.None? <==> forall j :: 0 <= j < |cases| ==> !CaseMatches(cases[j], name)
  {
    if cases == [] then None
    else if CaseMatches(cases[0], name) then Some(0)
    else match FirstMatch(cases[1..], name)
      case None => None
      case Some(k) => Some(k + 1)
  }

  /**
   * The fate of one entry: directories and non-PDF files are skipped; a
   * candidate goes to the first matching case under its slug, or is reported
   * unmatched when no case matches.
   */
  function Decide(e: Entry, cases: seq<Case>): Decision
  {
    if !IsCandidate(e) then Skipped
    else match FirstMatch(cases, e.name)
      case None => Unmatched
      case Some(k) => Moved(Move(e.name, cases[k].name, Slugify(e.name)))
  }

  /**
   * Only a candidate is ever moved or reported; it is reported unmatched
   * exactly when no case matches it; and it is moved, under its slug, into
   * the first case in map order that matches it.
   */
  lemma DecideSpec(e: Entry, cases: seq<Case>)
    ensures Decide(e, cases).Skipped? <==> !IsCandidate(e)
    ensures Decide(e, cases).Unmatched?
            <==> IsCandidate(e) && forall k :: 0 <= k < |cases| ==> !CaseMatches(cases[k], e.name)
    ensures Decide(e, cases).Moved? ==>
              var m := Decide(e, cases).move;
              && m.entry == e.name && m.newName == Slugify(e.name)
              && exists k :: 0 <= k < |cases| && cases[k].name == m.caseName && CaseMatches(cases[k], e.name)
                   && forall j :: 0 <= j < k ==> !CaseMatches(cases[j], e.name)
  {
  }

  /** What `organize` does with each entry, in directory order. */
  function Decisions(entries: seq<Entry>, cases: seq<Case>): (ds: seq<Decision>)
    ensures |ds| == |entries|
  {
    seq(|entries|, i requires 0 <= i < |entries| => Decide(entries[i], cases))
  }

  /** The moves among some decisions, in order. */
  function MovesOf(ds: seq<Decision>): seq<Move>
  {
    if ds == [] then []
    else MovesOf(ds[..|ds| - 1]) + (if ds[|ds| - 1].Moved? then [ds[|ds| - 1].move] else [])
  }

  /** The number of decisions that are not `Skipped`. */
  function HandledCount(ds: seq<Decision>): nat
  {
    if ds == [] then 0
    else HandledCount(ds[..|ds| - 1]) + (if ds[|ds| - 1].Skipped? then 0 else 1)
  }

  /** The number of unmatched decisions. */
  function UnmatchedCount(ds: seq<Decision>): nat
  {
    if ds == [] then 0
    else UnmatchedCount(ds[..|ds| - 1]) + (if ds[|ds| - 1].Unmatched? then 1 else 0)
  }

  /** The moves `organize` makes, in directory order. */
  function PlannedMoves(entries: seq<Entry>, cases: seq<Case>): seq<Move>
  {
    MovesOf(Decisions(entries, cases))
  }

  /** The names `organize` reports with "No case match", in directory order. */
  function UnmatchedNames(entries: seq<Entry>, cases: seq<Case>): seq<string>
  {
    if entries == [] then []
    else
      var e := entries[|entries| - 1];
      UnmatchedNames(entries[..|entries| - 1], cases) + (if Decide(e, cases).Unmatched? then [e.name] else [])
  }

  /** The number of candidate entries. */
  function CandidateCount(entries: seq<Entry>): nat
  {
    if entries == [] then 0
    else CandidateCount(entries[..|entries| - 1]) + (if IsCandidate(entries[|entries| - 1]) then 1 else 0)
  }

  /** Deciding one more entry appends its decision. */
  lemma DecisionsSnoc(entries: seq<Entry>, cases: seq<Case>)
    requires entries != []
    ensures Decisions(entries, cases)
            == Decisions(entries[..|entries| - 1], cases) + [Decide(entries[|entries| - 1], cases)]
  {
  }

  /** Planning one more entry appends its move, if it has one. */
  lemma PlannedMovesSnoc(entries: seq<Entry>, cases: seq<Case>)
    requires entries != []
    ensures var d := Decide(entries[|entries| - 1], cases);
            PlannedMoves(entries, cases)
            == PlannedMoves(entries[..|entries| - 1], cases) + (if d.Moved? then [d.move] else [])
  {
    var ds := Decisions(entries, cases);
    DecisionsSnoc(entries, cases);
    assert ds[..|ds| - 1] == Decisions(entries[..|entries| - 1], cases);
  }

  /** Taking one more entry of a listing appends its move, or its name when it is unmatched. */
  lemma OrganizeStep(entries: seq<Entry>, cases: seq<Case>, i: nat)
    requires i < |entries|
    ensures var d := Decide(entries[i], cases);
            && PlannedMoves(entries[..i + 1], cases)
               == PlannedMoves(entries[..i], cases) + (if d.Moved? then [d.move] else [])
            && UnmatchedNames(entries[..i + 1], cases)
               == UnmatchedNames(entries[..i], cases) + (if d.Unmatched? then [entries[i].name] else [])
  {
    assert entries[..i + 1][..i] == entries[..i];
    PlannedMovesSnoc(entries[..i + 1], cases);
  }

  /** A move is among the moves of some decisions exactly when one of them is that move. */
  lemma {:induction false} MovesOfMembership(ds: seq<Decision>, m: Move)
    ensures (m in MovesOf(ds)) <==> (exists i :: 0 <= i < |ds| && ds[i] == Moved(m))
  {
    if ds != [] {
      var n := |ds| - 1;
      MovesOfMembership(ds[..n], m);
      if exists i :: 0 <= i < |ds| && ds[i] == Moved(m) {
        var i :| 0 <= i < |ds| && ds[i] == Moved(m);
        if i < n {
          assert ds[..n][i] == ds[i];
        }
      }
      if exists i :: 0 <= i < n && ds[..n][i] == Moved(m) {
        var i :| 0 <= i < n && ds[..n][i] == Moved(m);
        assert ds[i] == Moved(m);
      }
    }
  }

  /** A move is planned exactly when some entry is decided to be moved that way. */
  lemma PlannedMovesMembership(entries: seq<Entry>, cases: seq<Case>, m: Move)
    ensures (m in PlannedMoves(entries, cases))
            <==> (exists i :: 0 <= i < |entries| && Decide(entries[i], cases) == Moved(m))
  {
    var ds := Decisions(entries, cases);
    MovesOfMembership(ds, m);
    assert forall i :: 0 <= i < |entries| ==> ds[i] == Decide(entries[i], cases);
  }

  /** Every decision other than `Skipped` is a move or an unmatched report. */
  lemma {:induction false} MovesOfCount(ds: seq<Decision>)
    ensures |MovesOf(ds)| + UnmatchedCount(ds) == HandledCount(ds)
  {
    if ds != [] {
      MovesOfCount(ds[..|ds| - 1]);
    }
  }

  /** Every candidate is either moved once or reported unmatched once; nothing else is either. */
  lemma {:induction false} EachCandidateHandledOnce(entries: seq<Entry>, cases: seq<Case>)
    ensures |PlannedMoves(entries, cases)| + |UnmatchedNames(entries, cases)| == CandidateCount(entries)
  {
    var ds := Decisions(entries, cases);
    MovesOfCount(ds);
    CountsAgree(entries, cases);
  }

  /** The decisions count the candidates and the unmatched names. */
  lemma {:induction false} CountsAgree(entries: seq<Entry>, cases: seq<Case>)
    ensures HandledCount(Decisions(entries, cases)) == CandidateCount(entries)
    ensures UnmatchedCount(Decisions(entries, cases)) == |UnmatchedNames(entries, cases)|
  {
    if entries != [] {
      var n := |entries| - 1;
      CountsAgree(entries[..n], cases);
      DecisionsSnoc(entries, cases);
      var ds := Decisions(entries, cases);
      assert ds[..n] == Decisions(entries[..n], cases);
      DecideSpec(entries[n], cases);
    }
  }

  /** Moves of distinct entries name distinct files. */
  lemma {:induction false} MovesOfDistinct(ds: seq<Decision>)
    requires forall i, j :: 0 <= i < j < |ds| && ds[i].Moved? && ds[j].Moved? ==> ds[i].move.entry != ds[j].move.entry
    ensures var moves := MovesOf(ds);
            forall a, b :: 0 <= a < b < |moves| ==> moves[a].entry != moves[b].entry
  {
    if ds != [] {
      var n := |ds| - 1;
      MovesOfDistinct(ds[..n]);
      if ds[n].Moved? {
        var before := MovesOf(ds[..n]);
        forall a | 0 <= a < |before|
          ensures before[a].entry != ds[n].move.entry
        {
          MovesOfMembership(ds[..n], before[a]);
          var i :| 0 <= i < n && ds[..n][i] == Moved(before[a]);
          assert ds[i] == Moved(before[a]);
        }
      }
    }
  }

  /** In a listing with distinct names, no file is moved twice. */
  lemma MovedAtMostOnce(entries: seq<Entry>, cases: seq<Case>)
    requires forall i, j :: 0 <= i < j < |entries| ==> entries[i].name != entries[j].name
    ensures var moves := PlannedMoves(entries, cases);
            forall a, b :: 0 <= a < b < |moves| ==> moves[a].entry != moves[b].entry
  {
    var ds := Decisions(entries, cases);
    forall i | 0 <= i < |ds| && ds[i].Moved?
      ensures ds[i].move.entry == entries[i].name
    {
      DecideSpec(entries[i], cases);
    }
    MovesOfDistinct(ds);
    assert PlannedMoves(entries, cases) == MovesOf(ds);
  }

  /** The slug of a name ending in `.pdf` is a slug with no `.`, ending in `_pdf` when the stem has a letter or digit. */
  lemma PdfFileSlug(name: string)
    requires EndsWith(ToLower(name), ".pdf")
    ensures IsSlug(Slugify(name)) && '.' !in Slugify(name)
    ensures Alnums(ToLower(name[..|name| - 4])) != [] ==> EndsWith(Slugify(name), "_pdf")
  {
    SlugifyShape(name);
    AllSlugCharsNoDot(Slugify(name));
    if Alnums(ToLower(name[..|name| - 4])) != [] {
      PdfSlug(name);
    }
  }

  /** The name a PDF is moved under is a slug with no `.`, ending in `_pdf` when its stem has a letter or digit. */
  lemma MovedName(e: Entry, cases: seq<Case>)
    requires Decide(e, cases).Moved?
    ensures var name := Decide(e, cases).move.newName;
            && IsSlug(name) && '.' !in name
            && (Alnums(ToLower(e.name[..|e.name| - 4])) != [] ==> EndsWith(name, "_pdf"))
  {
    assert Decide(e, cases).move.newName == Slugify(e.name) && EndsWith(ToLower(e.name), ".pdf") by {
      DecideSpec(e, cases);
    }
    PdfFileSlug(e.name);
  }

  /**
   * The loop of `organize` over the directory entries and, for each
   * candidate, over the case map, stopping at the first matching case.
   * Returns the moves it makes and the names it reports as unmatched.
   */
  method Organize(entries: seq<Entry>, cases: seq<Case>) returns (moves: seq<Move>, unmatched: seq<string>)
    ensures moves == PlannedMoves(entries, cases)
    ensures unmatched == UnmatchedNames(entries, cases)
  {
    moves, unmatched := [], [];
    for i := 0 to |entries|
      invariant moves == PlannedMoves(entries[..i], cases)
      invariant unmatched == UnmatchedNames(entries[..i], cases)
    {
      var entry := entries[i];
      // the two `continue` filters: directories, then names not ending in `.pdf`
      if entry.isDirectory || !EndsWith(ToLower(entry.name), ".pdf") {
        assert PlannedMoves(entries[..i + 1], cases) == moves && UnmatchedNames(entries[..i + 1], cases) == unmatched by {
          OrganizeStep(entries, cases, i);
        }
        continue;
      }
      var moved := false;
      ghost var before, target: nat := moves, 0;
      for k := 0 to |cases|
        invariant !moved && moves == before
        invariant forall j :: 0 <= j < k ==> !CaseMatches(cases[j], entry.name)
      {
        if CaseMatches(cases[k], entry.name) {
          moves := moves + [Move(entry.name, cases[k].name, Slugify(entry.name))];
          moved, target := true, k;
          break;
        }
      }
      if !moved {
        unmatched := unmatched + [entry.name];
      }
      assert PlannedMoves(entries[..i + 1], cases) == moves && UnmatchedNames(entries[..i + 1], cases) == unmatched by {
        OrganizeStep(entries, cases, i);
        if moved {
          assert FirstMatch(cases, entry.name) == Some(target);
        } else {
          assert FirstMatch(cases, entry.name) == None;
        }
      }
    }
    assert entries[..|entries|] == entries;
  }
}
