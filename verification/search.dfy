/** The search-term tokenizer (`normalize_query`): a left-to-right scan of
    the regular expression `"([^"]+)"|(\S+)`, each quoted phrase stripped and
    its runs of two or more whitespace characters replaced by one space. */
module Search {
  import opened Wrappers

  /** Python's `\s` and `str.isspace` on text: the Unicode whitespace set. */
  predicate IsSpace(c: char) {
    || '\t' <= c <= '\r'
    || '\U{1C}' <= c <= '\U{1F}'
    || c == ' ' || c == '\U{85}' || c == '\U{A0}' || c == '\U{1680}'
    || '\U{2000}' <= c <= '\U{200A}'
    || c == '\U{2028}' || c == '\U{2029}' || c == '\U{202F}' || c == '\U{205F}' || c == '\U{3000}'
  }

  predicate AllSpace(s: string) {
    forall i :: 0 <= i < |s| ==> IsSpace(s[i])
  }

  predicate NoSpace(s: string) {
    forall i :: 0 <= i < |s| ==> !IsSpace(s[i])
  }

  predicate NoQuote(s: string) {
    forall i :: 0 <= i < |s| ==> s[i] != '"'
  }

  /** No two whitespace characters stand next to each other. */
  predicate NoDoubleSpace(s: string) {
    forall i :: 0 <= i < |s| - 1 ==> !(IsSpace(s[i]) && IsSpace(s[i + 1]))
  }

  /** The shape of every term: no whitespace at either end and no run of two
      or more whitespace characters inside. */
  predicate Normalized(t: string) {
    && (|t| > 0 ==> !IsSpace(t[0]) && !IsSpace(t[|t| - 1]))
    && NoDoubleSpace(t)
  }

  /** The characters of `s` that are not whitespace, in order. */
  function Visible(s: string): string {
    if |s| == 0 then ""
    else (if IsSpace(s[0]) then "" else [s[0]]) + Visible(s[1..])
  }

  /** `str.lstrip()`. */
  function StripLeft(s: string): (r: string)
    ensures |r| > 0 ==> !IsSpace(r[0])
    ensures Visible(r) == Visible(s)
    ensures |r| <= |s| && r == s[|s| - |r|..]
    ensures AllSpace(s[..|s| - |r|])
  {
    if |s| > 0 && IsSpace(s[0]) then
      var r := StripLeft(s[1..]);
      StripLeftStep(s, r);
      r
    else
      WholeSlices(s);
      s
  }

  /** One step of `StripLeft`: what holds of the stripped tail holds of the
      whole string when its first character is whitespace. */
  lemma StripLeftStep(s: string, r: string)
    requires |s| > 0 && IsSpace(s[0])
    requires |r| > 0 ==> !IsSpace(r[0])
    requires Visible(r) == Visible(s[1..])
    requires |r| <= |s| - 1 && r == s[1..][|s| - 1 - |r|..]
    requires AllSpace(s[1..][..|s| - 1 - |r|])
    ensures |r| > 0 ==> !IsSpace(r[0])
    ensures Visible(r) == Visible(s)
    ensures |r| <= |s| && r == s[|s| - |r|..]
    ensures AllSpace(s[..|s| - |r|])
  {
    var n := |s| - |r|;
    TailSlices(s, n);
    AllSpaceCons(s[..n]);
    assert Visible(s) == "" + Visible(s[1..]);
  }

  /** The trivial slices of `s`. */
  lemma WholeSlices(s: string)
    ensures s[..0] == [] && s[0..] == s
    ensures s[..|s|] == s && s[|s|..] == []
  {
  }

  /** How the slices of `s` at `n` relate to those of its tail. */
  lemma TailSlices(s: string, n: nat)
    requires 1 <= n <= |s|
    ensures s[..n][0] == s[0] && s[..n][1..] == s[1..][..n - 1]
    ensures s[1..][n - 1..] == s[n..]
  {
  }

  lemma {:induction false} VisibleAppend(a: string, b: string)
    ensures Visible(a + b) == Visible(a) + Visible(b)
  {
    if |a| > 0 {
      VisibleAppend(a[1..], b);
      assert (a + b)[1..] == a[1..] + b;
    } else {
      assert a + b == b;
    }
  }

  /** `str.rstrip()`. */
  function StripRight(s: string): (r: string)
    ensures |r| > 0 ==> !IsSpace(r[|r| - 1])
    ensures Visible(r) == Visible(s)
    ensures |r| <= |s| && r == s[..|r|]
    ensures AllSpace(s[|r|..])
  {
    if |s| > 0 && IsSpace(s[|s| - 1]) then
      var t := s[..|s| - 1];
      var r := StripRight(t);
      VisibleAppend(t, [s[|s| - 1]]);
      assert s == t + [s[|s| - 1]];
      assert Visible([s[|s| - 1]]) == "";
      assert Visible(s) == Visible(t) + "" == Visible(t);
      assert r == s[..|r|];
      AllSpaceSnoc(t[|r|..], s[|s| - 1]);
      assert s[|r|..] == t[|r|..] + [s[|s| - 1]];
      r
    else
      WholeSlices(s);
      s
  }

  /** Whitespace followed by a whitespace character is whitespace. */
  lemma AllSpaceSnoc(s: string, c: char)
    requires AllSpace(s) && IsSpace(c)
    ensures AllSpace(s + [c])
  {
    var t := s + [c];
    forall i | 0 <= i < |t| ensures IsSpace(t[i]) {
      if i < |s| {
        assert t[i] == s[i];
      }
    }
  }

  /** `str.strip()`: both ends at once. */
  function Strip(s: string): (r: string)
    ensures |r| > 0 ==> !IsSpace(r[0]) && !IsSpace(r[|r| - 1])
    ensures Visible(r) == Visible(s)
    ensures exists i, j :: 0 <= i <= j <= |s| && r == s[i..j] && AllSpace(s[..i]) && AllSpace(s[j..])
  {
    var l := StripLeft(s);
    var r := StripRight(l);
    TrimmedSlice(s, l, r);
    r
  }

  /** A suffix `l` of `s` after whitespace, cut to a prefix `r` before
      whitespace, is a slice of `s` with only whitespace around it. */
  lemma TrimmedSlice(s: string, l: string, r: string)
    requires |l| <= |s| && l == s[|s| - |l|..] && AllSpace(s[..|s| - |l|])
    requires |r| <= |l| && r == l[..|r|] && AllSpace(l[|r|..])
    ensures exists i, j :: 0 <= i <= j <= |s| && r == s[i..j] && AllSpace(s[..i]) && AllSpace(s[j..])
  {
    var i := |s| - |l|;
    var j := i + |r|;
    assert r == s[i..j];
    assert s[j..] == l[|r|..];
  }

  /** Length of the maximal whitespace prefix of `s`. */
  function SpaceRun(s: string): (k: nat)
    ensures k <= |s| && AllSpace(s[..k])
    ensures k < |s| ==> !IsSpace(s[k])
  {
    if |s| > 0 && IsSpace(s[0]) then 1 + SpaceRun(s[1..]) else 0
  }

  /** `re.sub(r'\s{2,}', ' ', s)`: every maximal run of two or more
      whitespace characters becomes one space; a lone whitespace character,
      a tab say, is kept as it is. */
  function Collapse(s: string): (r: string)
    ensures NoDoubleSpace(r)
    ensures Visible(r) == Visible(s)
    ensures |s| > 0 <==> |r| > 0
    ensures |s| > 0 ==> (IsSpace(r[0]) <==> IsSpace(s[0]))
    ensures |s| > 0 ==> (IsSpace(r[|r| - 1]) <==> IsSpace(s[|s| - 1]))
    decreases |s|
  {
    if |s| == 0 then ""
    else if |s| >= 2 && IsSpace(s[0]) && IsSpace(s[1]) then
      var k := SpaceRun(s);
      var rest := Collapse(s[k..]);
      CollapseRunStep(s, k, rest);
      " " + rest
    else
      var rest := Collapse(s[1..]);
      CollapseCharStep(s, rest);
      [s[0]] + rest
  }

  lemma NoDoubleSpaceCons(c: char, rest: string)
    requires NoDoubleSpace(rest)
    requires |rest| > 0 && IsSpace(c) ==> !IsSpace(rest[0])
    ensures NoDoubleSpace([c] + rest)
  {
    var t := [c] + rest;
    forall i | 0 <= i < |t| - 1
      ensures !(IsSpace(t[i]) && IsSpace(t[i + 1]))
    {
      if i > 0 {
        assert t[i] == rest[i - 1] && t[i + 1] == rest[i];
      }
    }
  }

  /** The step of `Collapse` that replaces a whitespace run of length `k`:
      given the collapse `rest` of what follows the run, `" " + rest` meets
      every promise of `Collapse` for `s`. */
  lemma CollapseRunStep(s: string, k: nat, rest: string)
    requires |s| >= 2 && IsSpace(s[0]) && IsSpace(s[1])
    requires k == SpaceRun(s)
    requires NoDoubleSpace(rest) && Visible(rest) == Visible(s[k..])
    requires |s[k..]| > 0 <==> |rest| > 0
    requires |s[k..]| > 0 ==> (IsSpace(rest[0]) <==> IsSpace(s[k..][0]))
    requires |s[k..]| > 0 ==> (IsSpace(rest[|rest| - 1]) <==> IsSpace(s[k..][|s[k..]| - 1]))
    ensures var r := " " + rest;
      && NoDoubleSpace(r)
      && Visible(r) == Visible(s)
      && |r| > 0
      && IsSpace(r[0]) && IsSpace(s[0])
      && (IsSpace(r[|r| - 1]) <==> IsSpace(s[|s| - 1]))
  {
    assert k >= 2 by { assert IsSpace(s[1..][0]); }
    var run, tail := s[..k], s[k..];
    assert s == run + tail;
    assert |rest| > 0 ==> !IsSpace(rest[0]) by {
      if |rest| > 0 {
        assert tail[0] == s[k];
      }
    }
    NoDoubleSpaceCons(' ', rest);
    calc {
      Visible(s);
      { VisibleAppend(run, tail); }
      Visible(run) + Visible(tail);
      { VisibleAllSpace(run); }
      Visible(rest);
      { VisibleAppend(" ", rest); }
      Visible(" " + rest);
    }
    if |rest| == 0 {
      assert s[|s| - 1] == run[k - 1];
    } else {
      assert (" " + rest)[|rest|] == rest[|rest| - 1];
      assert tail[|tail| - 1] == s[|s| - 1];
    }
  }

  /** The step of `Collapse` that keeps the first character: given the
      collapse `rest` of the tail, `[s[0]] + rest` meets every promise of
      `Collapse` for `s`. */
  lemma CollapseCharStep(s: string, rest: string)
    requires |s| > 0 && !(|s| >= 2 && IsSpace(s[0]) && IsSpace(s[1]))
    requires NoDoubleSpace(rest) && Visible(rest) == Visible(s[1..])
    requires |s[1..]| > 0 <==> |rest| > 0
    requires |s[1..]| > 0 ==> (IsSpace(rest[0]) <==> IsSpace(s[1..][0]))
    requires |s[1..]| > 0 ==> (IsSpace(rest[|rest| - 1]) <==> IsSpace(s[1..][|s[1..]| - 1]))
    ensures var r := [s[0]] + rest;
      && NoDoubleSpace(r)
      && Visible(r) == Visible(s)
      && |r| > 0 && r[0] == s[0]
      && (IsSpace(r[|r| - 1]) <==> IsSpace(s[|s| - 1]))
  {
    assert |rest| > 0 ==> s[1..][0] == s[1];
    NoDoubleSpaceCons(s[0], rest);
    VisibleAppend([s[0]], rest);
    assert s == [s[0]] + s[1..];
    VisibleAppend([s[0]], s[1..]);
    if |rest| > 0 {
      assert ([s[0]] + rest)[|rest|] == rest[|rest| - 1];
      assert s[1..][|s| - 2] == s[|s| - 1];
    }
  }

  lemma {:induction false} VisibleAllSpace(s: string)
    requires AllSpace(s)
    ensures Visible(s) == ""
  {
    if |s| > 0 {
      VisibleAllSpace(s[1..]);
    }
  }

  /** One term's normal form: stripped, then its whitespace runs collapsed. */
  function NormalizeTerm(t: string): (r: string)
    ensures Normalized(r)
    ensures Visible(r) == Visible(t)
  {
    Collapse(Strip(t))
  }

  /** Collapsing a string that has no whitespace run changes nothing. */
  lemma {:induction false} CollapseNoDoubleSpace(s: string)
    requires NoDoubleSpace(s)
    ensures Collapse(s) == s
    decreases |s|
  {
    if |s| > 0 {
      CollapseNoDoubleSpace(s[1..]);
      assert [s[0]] + s[1..] == s;
    }
  }

  /** `SpaceRun` is the only length of a whitespace prefix that stops at a
      non-whitespace character or at the end. */
  lemma {:induction false} SpaceRunUnique(s: string, k: nat)
    requires k <= |s| && AllSpace(s[..k]) && (k < |s| ==> !IsSpace(s[k]))
    ensures SpaceRun(s) == k
  {
    if k > 0 {
      assert IsSpace(s[..k][0]);
      assert s[1..][..k - 1] == s[..k][1..];
      SpaceRunUnique(s[1..], k - 1);
    }
  }

  /** `CollapseSplit` with nothing before the run: a leading run of two or
      more whitespace characters becomes one space. */
  lemma CollapseLeadingRun(u: string, w: string, v: string)
    requires |u| == 0 && |w| >= 2 && AllSpace(w)
    requires |v| == 0 || !IsSpace(v[0])
    ensures Collapse(u + w + v) == Collapse(u) + " " + Collapse(v)
  {
    var s := u + w + v;
    EmptyJoin(u, w, v);
    CollapseRunUnfold(s, |w|);
    assert Collapse(u) == "";
    EmptyJoin(Collapse(u), " ", Collapse(v));
  }

  /** Joining after an empty part. */
  lemma EmptyJoin(u: string, w: string, v: string)
    requires |u| == 0
    ensures u + w + v == w + v
    ensures (u + w + v)[..|w|] == w && (u + w + v)[|w|..] == v
  {
    assert u + w == w;
  }

  /** `Collapse` on a string opening with a whitespace run of length `k >= 2`. */
  lemma CollapseRunUnfold(s: string, k: nat)
    requires 2 <= k <= |s| && AllSpace(s[..k]) && (k < |s| ==> !IsSpace(s[k]))
    ensures Collapse(s) == " " + Collapse(s[k..])
  {
    SpaceRunUnique(s, k);
    assert IsSpace(s[..k][0]) && IsSpace(s[..k][1]);
  }

  /** `Collapse` on a string that does not open with two whitespace characters. */
  lemma CollapseCharUnfold(s: string)
    requires |s| > 0 && !(|s| >= 2 && IsSpace(s[0]) && IsSpace(s[1]))
    ensures Collapse(s) == [s[0]] + Collapse(s[1..])
  {
  }

  /** The last step of `CollapseSplit`: a head glued to the collapsed
      remainder regroups as the collapsed left part, a space and the
      collapsed right part. */
  lemma JoinAssoc(head: string, whole: string, rest: string, left: string, right: string, u: string)
    requires whole == head + rest && rest == left + " " + right && u == head + left
    ensures whole == u + " " + right
  {
  }

  /** A run of two or more whitespace characters between a part that does
      not end in whitespace and one that does not start with it becomes a
      single space, and each part is collapsed on its own. */
  lemma {:induction false} CollapseSplit(u: string, w: string, v: string)
    requires |w| >= 2 && AllSpace(w)
    requires |u| == 0 || !IsSpace(u[|u| - 1])
    requires |v| == 0 || !IsSpace(v[0])
    ensures Collapse(u + w + v) == Collapse(u) + " " + Collapse(v)
    decreases |u|
  {
    if |u| == 0 {
      CollapseLeadingRun(u, w, v);
    } else if |u| >= 2 && IsSpace(u[0]) && IsSpace(u[1]) {
      var k := SpaceRun(u);
      assert k >= 2 by { assert IsSpace(u[1..][0]); }
      assert u[k..][|u| - k - 1] == u[|u| - 1];
      CollapseSplit(u[k..], w, v);
      CollapseSplitRun(u, w, v, k);
    } else {
      assert |u| > 1 ==> u[1..][|u| - 2] == u[|u| - 1];
      CollapseSplit(u[1..], w, v);
      CollapseSplitChar(u, w, v);
    }
  }

  /** Cutting `u + w + v` inside `u`. */
  lemma JoinSlices(u: string, w: string, v: string, k: nat)
    requires k <= |u|
    ensures (u + w + v)[..k] == u[..k]
    ensures (u + w + v)[k..] == u[k..] + w + v
    ensures forall i :: 0 <= i < |u| ==> (u + w + v)[i] == u[i]
  {
  }

  /** `CollapseSplit` for a left part opening with a whitespace run of
      length `k`, from the split of what follows the run. */
  lemma CollapseSplitRun(u: string, w: string, v: string, k: nat)
    requires 2 <= k < |u| && AllSpace(u[..k]) && !IsSpace(u[k])
    requires Collapse(u[k..] + w + v) == Collapse(u[k..]) + " " + Collapse(v)
    ensures Collapse(u + w + v) == Collapse(u) + " " + Collapse(v)
  {
    var s := u + w + v;
    JoinSlices(u, w, v, k);
    CollapseRunUnfold(s, k);
    CollapseRunUnfold(u, k);
    JoinAssoc(" ", Collapse(s), Collapse(u[k..] + w + v), Collapse(u[k..]), Collapse(v), Collapse(u));
  }

  /** `CollapseSplit` for a left part whose first character is kept, from
      the split of the rest. */
  lemma CollapseSplitChar(u: string, w: string, v: string)
    requires |w| >= 2
    requires |u| > 0 && !(|u| >= 2 && IsSpace(u[0]) && IsSpace(u[1]))
    requires |u| == 1 ==> !IsSpace(u[0])
    requires Collapse(u[1..] + w + v) == Collapse(u[1..]) + " " + Collapse(v)
    ensures Collapse(u + w + v) == Collapse(u) + " " + Collapse(v)
  {
    var s := u + w + v;
    JoinSlices(u, w, v, 1);
    assert |u| >= 2 ==> s[1] == u[1];
    CollapseCharUnfold(s);
    CollapseCharUnfold(u);
    JoinAssoc([u[0]], Collapse(s), Collapse(u[1..] + w + v), Collapse(u[1..]), Collapse(v), Collapse(u));
  }

  /** Two words with a whitespace run of length two or more between them
      normalize to the words joined by one space. */
  lemma NormalizeJoinsWords(a: string, w: string, b: string)
    requires |a| > 0 && NoSpace(a) && |b| > 0 && NoSpace(b)
    requires |w| >= 2 && AllSpace(w)
    ensures NormalizeTerm(a + w + b) == a + " " + b
  {
    var t := a + w + b;
    assert t[0] == a[0] && t[|t| - 1] == b[|b| - 1];
    StripLeftIdentity(t);
    StripRightIdentity(t);
    CollapseSplit(a, w, b);
    CollapseNoDoubleSpace(a);
    CollapseNoDoubleSpace(b);
  }

  lemma StripLeftIdentity(s: string)
    requires |s| == 0 || !IsSpace(s[0])
    ensures StripLeft(s) == s
  {
  }

  lemma StripRightIdentity(s: string)
    requires |s| == 0 || !IsSpace(s[|s| - 1])
    ensures StripRight(s) == s
  {
  }

  /** A term already in normal form is its own normal form, so normalizing
      is idempotent. */
  lemma NormalizeIdentity(t: string)
    requires Normalized(t)
    ensures NormalizeTerm(t) == t
  {
    StripLeftIdentity(t);
    StripRightIdentity(t);
    CollapseNoDoubleSpace(t);
  }

  lemma NormalizeIdempotent(t: string)
    ensures NormalizeTerm(NormalizeTerm(t)) == NormalizeTerm(t)
  {
    NormalizeIdentity(NormalizeTerm(t));
  }

  /** For `s` starting with a quote: the position of the quote that closes a
      phrase of one or more non-quote characters, if there is one. */
  function ClosingQuote(s: string): (r: Option<nat>)
    requires |s| > 0 && s[0] == '"'
    ensures r.Some? ==> 2 <= r.value < |s| && s[r.value] == '"' && NoQuote(s[1..r.value])
    ensures r.None? ==> |s| == 1 || s[1] == '"' || NoQuote(s[1..])
  {
    var k := QuoteFree(s[1..]);
    if k >= 1 && k < |s| - 1 then
      assert s[1..k + 1] == s[1..][..k];
      Some(k + 1)
    else
      None
  }

  /** Length of the maximal quote-free prefix of `s`. */
  function QuoteFree(s: string): (k: nat)
    ensures k <= |s| && NoQuote(s[..k])
    ensures k < |s| ==> s[k] == '"'
  {
    if |s| > 0 && s[0] != '"' then 1 + QuoteFree(s[1..]) else 0
  }

  /** Length of the maximal non-whitespace prefix of `s`: the `\S+` match. */
  function WordEnd(s: string): (k: nat)
    ensures k <= |s| && NoSpace(s[..k])
    ensures k < |s| ==> IsSpace(s[k])
  {
    if |s| > 0 && !IsSpace(s[0]) then 1 + WordEnd(s[1..]) else 0
  }

  /** `normalize_query`: the terms of a query string, left to right. At each
      position a quoted phrase is tried first; failing that, a maximal run of
      non-whitespace characters, quotes included, is one term; whitespace
      between matches is skipped. */
  function NormalizeQuery(s: string): (terms: seq<string>)
    ensures forall i :: 0 <= i < |terms| ==> Normalized(terms[i])
    ensures |terms| == 0 <==> AllSpace(s)
    decreases |s|
  {
    if |s| == 0 then []
    else if IsSpace(s[0]) then
      var rest := NormalizeQuery(s[1..]);
      AllSpaceCons(s);
      rest
    else
      assert !AllSpace(s);
      if s[0] == '"' && ClosingQuote(s).Some? then
        var j := ClosingQuote(s).value;
        var rest := NormalizeQuery(s[j + 1..]);
        NormalizedCons(NormalizeTerm(s[1..j]), rest);
        [NormalizeTerm(s[1..j])] + rest
      else
        var k := WordEnd(s);
        var rest := NormalizeQuery(s[k..]);
        WordNormalized(s[..k]);
        NormalizedCons(s[..k], rest);
        [s[..k]] + rest
  }

  /** A string of whitespace is a space followed by a string of whitespace. */
  lemma AllSpaceCons(s: string)
    requires |s| > 0 && IsSpace(s[0])
    ensures AllSpace(s) <==> AllSpace(s[1..])
  {
    if AllSpace(s[1..]) {
      forall i | 0 < i < |s| ensures IsSpace(s[i]) {
        assert s[i] == s[1..][i - 1];
      }
    }
  }

  /** A non-empty run without whitespace is in normal form. */
  lemma WordNormalized(w: string)
    requires |w| > 0 && NoSpace(w)
    ensures Normalized(w)
  {
    assert !IsSpace(w[|w| - 1]);
  }

  lemma NormalizedCons(t: string, rest: seq<string>)
    requires Normalized(t)
    requires forall i :: 0 <= i < |rest| ==> Normalized(rest[i])
    ensures forall i :: 0 <= i < |[t] + rest| ==> Normalized(([t] + rest)[i])
  {
    forall i | 0 < i < |[t] + rest| ensures Normalized(([t] + rest)[i]) {
      assert ([t] + rest)[i] == rest[i - 1];
    }
  }

  lemma {:induction false} WordEndUnique(s: string, k: nat)
    requires k <= |s| && NoSpace(s[..k]) && (k < |s| ==> IsSpace(s[k]))
    ensures WordEnd(s) == k
  {
    if k > 0 {
      assert !IsSpace(s[..k][0]);
      assert s[1..][..k - 1] == s[..k][1..];
      WordEndUnique(s[1..], k - 1);
    }
  }

  lemma {:induction false} QuoteFreeUnique(s: string, k: nat)
    requires k <= |s| && NoQuote(s[..k]) && (k < |s| ==> s[k] == '"')
    ensures QuoteFree(s) == k
  {
    if k > 0 {
      assert s[..k][0] != '"';
      assert s[1..][..k - 1] == s[..k][1..];
      QuoteFreeUnique(s[1..], k - 1);
    }
  }

  /** Scanning a quoted phrase: `"p"` with `p` non-empty and quote-free is
      one term, `p` normalized, whatever follows it. */
  lemma PhraseScan(p: string, rest: string)
    requires |p| > 0 && NoQuote(p)
    ensures NormalizeQuery("\"" + p + "\"" + rest) == [NormalizeTerm(p)] + NormalizeQuery(rest)
  {
    var s := "\"" + p + "\"" + rest;
    var j := |p| + 1;
    assert s[1..][..|p|] == p;
    QuoteFreeUnique(s[1..], |p|);
    assert ClosingQuote(s) == Some(j);
    assert s[1..j] == p;
    assert s[j + 1..] == rest;
  }

  /** Scanning a word: a non-empty whitespace-free run that does not open a
      phrase (it does not start with a quote, or no closing quote follows),
      followed by whitespace or the end, is one term as it stands. */
  lemma WordScan(w: string, rest: string)
    requires |w| > 0 && NoSpace(w)
    requires w[0] == '"' ==> ClosingQuote(w + rest).None?
    requires |rest| == 0 || IsSpace(rest[0])
    ensures NormalizeQuery(w + rest) == [w] + NormalizeQuery(rest)
  {
    var s := w + rest;
    assert s[..|w|] == w && s[|w|..] == rest;
    WordEndUnique(s, |w|);
    assert s[0] == w[0];
  }

  /** A quote that no other quote follows opens no phrase: it is an ordinary
      character of the word it starts, so `"abc def` gives `"abc` and `def`. */
  lemma UnclosedQuoteScan(w: string, rest: string)
    requires |w| > 0 && w[0] == '"' && NoSpace(w)
    requires NoQuote(w[1..]) && NoQuote(rest)
    requires |rest| == 0 || IsSpace(rest[0])
    ensures NormalizeQuery(w + rest) == [w] + NormalizeQuery(rest)
  {
    var s := w + rest;
    var t := s[1..];
    assert t == w[1..] + rest;
    assert NoQuote(t) by {
      forall i | 0 <= i < |t| ensures t[i] != '"' {
        if i < |w| - 1 { assert t[i] == w[1..][i]; } else { assert t[i] == rest[i - (|w| - 1)]; }
      }
    }
    assert t[..|t|] == t;
    QuoteFreeUnique(t, |t|);
    assert ClosingQuote(s).None?;
    WordScan(w, rest);
  }

  /** Python's `str.split()`, written as a left-to-right fold that
      accumulates the current word `cur` and the finished words `acc`. */
  function SplitFold(s: string, cur: string, acc: seq<string>): seq<string>
    decreases |s|
  {
    if |s| == 0 then (if |cur| == 0 then acc else acc + [cur])
    else if IsSpace(s[0]) then SplitFold(s[1..], "", if |cur| == 0 then acc else acc + [cur])
    else SplitFold(s[1..], cur + [s[0]], acc)
  }

  function Words(s: string): seq<string> {
    SplitFold(s, "", [])
  }

  lemma SpaceScan(s: string)
    requires |s| > 0 && IsSpace(s[0])
    ensures NormalizeQuery(s) == NormalizeQuery(s[1..])
  {
  }

  lemma {:induction false} SplitFoldScan(s: string, cur: string, acc: seq<string>)
    requires NoQuote(s) && NoQuote(cur) && NoSpace(cur)
    ensures SplitFold(s, cur, acc) == acc + NormalizeQuery(cur + s)
    decreases |s|, 1
  {
    if |s| == 0 {
      assert cur + s == cur;
      if |cur| > 0 {
        WordScan(cur, "");
        assert cur + "" == cur;
      }
    } else if IsSpace(s[0]) {
      SplitFoldScanSpace(s, cur, acc);
    } else {
      SplitFoldScanChar(s, cur, acc);
    }
  }

  lemma {:induction false} SplitFoldScanSpace(s: string, cur: string, acc: seq<string>)
    requires NoQuote(s) && NoQuote(cur) && NoSpace(cur)
    requires |s| > 0 && IsSpace(s[0])
    ensures SplitFold(s, cur, acc) == acc + NormalizeQuery(cur + s)
    decreases |s|, 0
  {
    var t := s[1..];
    var acc' := if |cur| == 0 then acc else acc + [cur];
    assert NoQuote(t);
    assert SplitFold(s, cur, acc) == SplitFold(t, "", acc');
    SplitFoldScan(t, "", acc');
    assert "" + t == t;
    SpaceScan(s);
    if |cur| == 0 {
      assert cur + s == s;
    } else {
      WordScan(cur, s);
      SnocAssoc(acc, cur, NormalizeQuery(s));
    }
  }

  /** Appending a word and then a list is appending their concatenation. */
  lemma SnocAssoc(acc: seq<string>, w: string, ws: seq<string>)
    ensures acc + [w] + ws == acc + ([w] + ws)
  {
  }

  lemma {:induction false} SplitFoldScanChar(s: string, cur: string, acc: seq<string>)
    requires NoQuote(s) && NoQuote(cur) && NoSpace(cur)
    requires |s| > 0 && !IsSpace(s[0])
    ensures SplitFold(s, cur, acc) == acc + NormalizeQuery(cur + s)
    decreases |s|, 0
  {
    var cur' := cur + [s[0]];
    assert SplitFold(s, cur, acc) == SplitFold(s[1..], cur', acc);
    assert NoQuote(cur') && NoSpace(cur') && NoQuote(s[1..]);
    SplitFoldScan(s[1..], cur', acc);
    assert cur' + s[1..] == cur + s;
  }

  /** Without quotes, the tokenizer is exactly whitespace splitting. */
  lemma UnquotedIsSplit(s: string)
    requires NoQuote(s)
    ensures NormalizeQuery(s) == Words(s)
  {
    SplitFoldScan(s, "", []);
    assert "" + s == s;
  }

  /** A search term as a user would type it: a bare word or a quoted phrase. */
  datatype Term = Word(w: string) | Phrase(p: string)

  /** Terms that come back unchanged from the tokenizer: a word is non-empty,
      whitespace-free and does not open with a quote; a phrase is non-empty,
      quote-free and already normalized. */
  predicate WellFormed(t: Term) {
    match t
    case Word(w) => |w| > 0 && NoSpace(w) && w[0] != '"'
    case Phrase(p) => |p| > 0 && NoQuote(p) && Normalized(p)
  }

  function Text(t: Term): string {
    match t
    case Word(w) => w
    case Phrase(p) => p
  }

  function Texts(ts: seq<Term>): seq<string> {
    if |ts| == 0 then [] else [Text(ts[0])] + Texts(ts[1..])
  }

  /** How a term is typed: phrases between double quotes. */
  function Quoted(t: Term): string {
    match t
    case Word(w) => w
    case Phrase(p) => "\"" + p + "\""
  }

  /** A query string typing the terms one after another, separated by one space. */
  function Render(ts: seq<Term>): string {
    if |ts| == 0 then ""
    else if |ts| == 1 then Quoted(ts[0])
    else Quoted(ts[0]) + " " + Render(ts[1..])
  }

  lemma TermScan(t: Term, rest: string)
    requires WellFormed(t)
    requires |rest| == 0 || IsSpace(rest[0])
    ensures NormalizeQuery(Quoted(t) + rest) == [Text(t)] + NormalizeQuery(rest)
  {
    match t
    case Word(w) => WordScan(w, rest);
    case Phrase(p) =>
      PhraseScan(p, rest);
      NormalizeIdentity(p);
  }

  /** Round trip: tokenizing the rendered query gives back the terms' texts,
      in order. */
  lemma {:induction false} RenderRoundTrip(ts: seq<Term>)
    requires forall i :: 0 <= i < |ts| ==> WellFormed(ts[i])
    ensures NormalizeQuery(Render(ts)) == Texts(ts)
  {
    if |ts| == 1 {
      TermScan(ts[0], "");
      assert Quoted(ts[0]) + "" == Quoted(ts[0]);
    } else if |ts| > 1 {
      var tail := " " + Render(ts[1..]);
      TermScan(ts[0], tail);
      assert Quoted(ts[0]) + " " + Render(ts[1..]) == Quoted(ts[0]) + tail;
      assert tail[1..] == Render(ts[1..]);
      RenderRoundTrip(ts[1..]);
    }
  }

  lemma PhraseWordScan(phrase: string, word: string)
    requires |phrase| > 0 && NoQuote(phrase) && Normalized(phrase)
    requires |word| > 0 && NoSpace(word) && word[0] != '"'
    ensures NormalizeQuery("\"" + phrase + "\"" + (" " + word)) == [phrase, word]
  {
    PhraseScan(phrase, " " + word);
    NormalizeIdentity(phrase);
    SpaceScan(" " + word);
    assert (" " + word)[1..] == word + "";
    WordScan(word, "");
  }

  /** A phrase and a word: `"red shoes" small` gives two terms. */
  lemma PhraseThenWord()
    ensures NormalizeQuery("\"red shoes\" small") == ["red shoes", "small"]
  {
    var phrase, word := "red shoes", "small";
    assert "\"red shoes\" small" == "\"" + phrase + "\"" + (" " + word);
    assert NoQuote(phrase) && NoSpace(word) && Normalized(phrase);
    PhraseWordScan(phrase, word);
  }

  /** A quoted phrase of whitespace only becomes the empty term. */
  lemma BlankPhraseIsEmptyTerm(p: string, rest: string)
    requires |p| > 0 && AllSpace(p)
    ensures NormalizeQuery("\"" + p + "\"" + rest) == [""] + NormalizeQuery(rest)
  {
    assert NoQuote(p) by {
      forall i | 0 <= i < |p| ensures p[i] != '"' {
        assert IsSpace(p[i]);
      }
    }
    PhraseScan(p, rest);
    VisibleAllSpace(p);
  }
}
