/** The option type shared by every module of the model (Python's `Optional`). */
module Common {
  datatype Option<T> = None | Some(value: T)

  /**
   * `out` is what a loop appending `f(x)` for every item `x` of `xs` where
   * `f(x)` is present builds: output position `m` comes from item `idx[m]`,
   * the positions keep input order, and no item with a value is skipped.
   */
  ghost predicate PickedBy<T, U>(out: seq<U>, xs: seq<T>, f: T -> Option<U>, idx: seq<nat>) {
    && |idx| == |out|
    && (forall m | 0 <= m < |idx| :: idx[m] < |xs| && f(xs[idx[m]]) == Some(out[m]))
    && (forall m, n | 0 <= m < n < |idx| :: idx[m] < idx[n])
    && (forall i | 0 <= i < |xs| && f(xs[i]).Some? :: i in idx)
  }

  /** The positions of the items of `xs` where `f` has a value, in order. */
  function Hits<T, U>(xs: seq<T>, f: T -> Option<U>): (idx: seq<nat>)
    ensures forall m | 0 <= m < |idx| :: idx[m] < |xs|
  {
    if xs == [] then []
    else Hits(xs[..|xs| - 1], f) + (if f(xs[|xs| - 1]).Some? then [|xs| - 1] else [])
  }

  /** No output and no input. */
  lemma PickedEmpty<T, U>(f: T -> Option<U>)
    ensures PickedBy([], [], f, Hits([], f))
  {
  }

  /** An item with a value appends it; any other item appends nothing. */
  lemma PickedSnoc<T, U>(out: seq<U>, xs: seq<T>, x: T, f: T -> Option<U>)
    requires PickedBy(out, xs, f, Hits(xs, f))
    ensures f(x).Some? ==> PickedBy(out + [f(x).value], xs + [x], f, Hits(xs + [x], f))
    ensures f(x).None? ==> PickedBy(out, xs + [x], f, Hits(xs + [x], f))
  {
    var ys := xs + [x];
    assert ys[..|ys| - 1] == xs;
    var idx := Hits(xs, f);
    forall m | 0 <= m < |idx| ensures ys[idx[m]] == xs[idx[m]] { }
    forall i | 0 <= i < |xs| ensures ys[i] == xs[i] { }
  }
}

/**
 * The parts of Python's `str` that the lobbyharvest core relies on:
 * character classes, case mapping, `strip`, `split`/`join`, `in`,
 * `replace`, `zfill`, `int()` and string ordering.
 *
 * Whitespace is CPython's `str.isspace()` set, which is also what `\s`,
 * `str.split()` and `str.strip()` use. Letters, digits, `\w` and the
 * case mappings are modelled on ASCII only.
 */
module Text {
  import opened Common

  // ---------------------------------------------------------------------
  // Character classes
  // ---------------------------------------------------------------------

  /** `c.isspace()`; also the class `\s` of `re` on `str` patterns. */
  predicate IsSpace(c: char) {
    c == ' ' || ('\t' <= c <= '\r') || ('\U{1c}' <= c <= '\U{1f}')
    || c == '\U{85}' || c == '\U{a0}' || c == '\U{1680}'
    || ('\U{2000}' <= c <= '\U{200a}') || c == '\U{2028}' || c == '\U{2029}'
    || c == '\U{202f}' || c == '\U{205f}' || c == '\U{3000}'
  }

  predicate IsDigit(c: char) { '0' <= c <= '9' }

  /** `c.isalpha()`, ASCII part. */
  predicate IsLetter(c: char) { 'a' <= c <= 'z' || 'A' <= c <= 'Z' }

  /** The class `\w` of `re`, ASCII part. */
  predicate IsWordChar(c: char) { IsLetter(c) || IsDigit(c) || c == '_' }

  function UpperChar(c: char): (u: char)
    ensures !('a' <= u <= 'z')
    ensures IsLetter(c) <==> IsLetter(u)
    ensures IsDigit(c) <==> IsDigit(u)
    ensures IsSpace(c) <==> IsSpace(u)
    ensures c == '_' <==> u == '_'
  {
    if 'a' <= c <= 'z' then (c as int - 32) as char else c
  }

  function LowerChar(c: char): (l: char)
    ensures !('A' <= l <= 'Z')
  {
    if 'A' <= c <= 'Z' then (c as int + 32) as char else c
  }

  /** `s.upper()`. */
  function Upper(s: string): (u: string)
    ensures |u| == |s|
  {
    seq(|s|, i requires 0 <= i < |s| => UpperChar(s[i]))
  }

  /** `s.lower()`. */
  function Lower(s: string): (l: string)
    ensures |l| == |s|
  {
    seq(|s|, i requires 0 <= i < |s| => LowerChar(s[i]))
  }

  lemma UpperAppend(a: string, b: string)
    ensures Upper(a + b) == Upper(a) + Upper(b)
  {
  }

  // ---------------------------------------------------------------------
  // strip
  // ---------------------------------------------------------------------

  predicate AllSpace(s: string) {
    forall i | 0 <= i < |s| :: IsSpace(s[i])
  }

  /** The end of the whitespace run of `s` that starts at `p`. */
  function SpaceRunEnd(s: string, p: nat): (i: nat)
    requires p <= |s|
    ensures p <= i <= |s| && (forall j | p <= j < i :: IsSpace(s[j])) && (i < |s| ==> !IsSpace(s[i]))
    decreases |s| - p
  {
    if p < |s| && IsSpace(s[p]) then SpaceRunEnd(s, p + 1) else p
  }

  /** The start of the whitespace run of `s` that ends just before `p`. */
  function SpaceRunStart(s: string, p: nat): (i: nat)
    requires p <= |s|
    ensures i <= p && (forall j | i <= j < p :: IsSpace(s[j])) && (i > 0 ==> !IsSpace(s[i - 1]))
    decreases p
  {
    if p > 0 && IsSpace(s[p - 1]) then SpaceRunStart(s, p - 1) else p
  }

  /** `s.lstrip()`: drops the leading whitespace run. */
  function TrimStart(s: string): string {
    s[SpaceRunEnd(s, 0)..]
  }

  /** `s.rstrip()`: drops the trailing whitespace run. */
  function TrimEnd(s: string): string {
    s[..SpaceRunStart(s, |s|)]
  }

  /** Where `Strip(s)` starts inside `s`. */
  function StripOffset(s: string): nat
    ensures StripOffset(s) <= |s|
  {
    SpaceRunEnd(s, 0)
  }

  /** Where `Strip(s)` ends inside `s`: never before it starts. */
  function StripEnd(s: string): (e: nat)
    ensures StripOffset(s) <= e <= |s|
  {
    if StripOffset(s) == |s| then |s| else SpaceRunStart(s, |s|)
  }

  /**
   * `s.strip()`: the slice of `s` left once whitespace is removed at both
   * ends; it neither starts nor ends with whitespace.
   */
  function Strip(s: string): (r: string)
    ensures r == [] || (!IsSpace(r[0]) && !IsSpace(r[|r| - 1]))
  {
    s[StripOffset(s)..StripEnd(s)]
  }

  /** What `strip` removes is whitespace. */
  lemma StripRemovesSpace(s: string)
    ensures forall i | 0 <= i < StripOffset(s) :: IsSpace(s[i])
    ensures forall i | StripEnd(s) <= i < |s| :: IsSpace(s[i])
  {
  }

  /** `strip` is `rstrip` after `lstrip`. */
  lemma StripTrims(s: string)
    ensures Strip(s) == TrimEnd(TrimStart(s))
  {
    var a := StripOffset(s);
    var t := TrimStart(s);
    if a < |s| {
      SpaceRunStartShift(s, a, |s|);
      assert SpaceRunStart(t, |t|) + a == StripEnd(s);
    }
  }

  /** Cutting a prefix off shifts every run start with it, as long as the run stays clear of the cut. */
  lemma {:induction false} SpaceRunStartShift(s: string, a: nat, p: nat)
    requires a < |s| && !IsSpace(s[a]) && a < p <= |s|
    ensures SpaceRunStart(s[a..], p - a) + a == SpaceRunStart(s, p)
    decreases p
  {
    if IsSpace(s[p - 1]) {
      assert s[a..][p - a - 1] == s[p - 1];
      SpaceRunStartShift(s, a, p - 1);
    } else {
      assert s[a..][p - a - 1] == s[p - 1];
    }
  }

  /** A run start only looks at the text before it. */
  lemma {:induction false} SpaceRunStartPrefix(s: string, t: string, p: nat)
    requires p <= |s|
    ensures SpaceRunStart(s + t, p) == SpaceRunStart(s, p)
    decreases p
  {
    if p > 0 {
      assert (s + t)[p - 1] == s[p - 1];
      SpaceRunStartPrefix(s, t, p - 1);
    }
  }

  /** A run start does not change when more whitespace follows. */
  lemma {:induction false} SpaceRunStartSkip(s: string, p: nat, q: nat)
    requires p <= q <= |s| && forall j | p <= j < q :: IsSpace(s[j])
    ensures SpaceRunStart(s, q) == SpaceRunStart(s, p)
    decreases q
  {
    if p < q {
      SpaceRunStartSkip(s, p, q - 1);
    }
  }

  /** A run end that stops inside `s` is not moved by text appended to `s`. */
  lemma {:induction false} SpaceRunEndAppend(s: string, t: string, p: nat)
    requires p <= |s| && SpaceRunEnd(s, p) < |s|
    ensures SpaceRunEnd(s + t, p) == SpaceRunEnd(s, p)
    decreases |s| - p
  {
    assert (s + t)[p] == s[p];
    if IsSpace(s[p]) {
      SpaceRunEndAppend(s, t, p + 1);
    }
  }

  /** `rstrip` keeps a first character that is not whitespace. */
  lemma TrimEndKeepsFirst(s: string)
    requires s != [] && !IsSpace(s[0])
    ensures TrimEnd(s) != [] && TrimEnd(s)[0] == s[0]
  {
  }

  /** `strip` keeps a first character that is not whitespace. */
  lemma StripKeepsFirst(s: string)
    requires s != [] && !IsSpace(s[0])
    ensures Strip(s) != [] && Strip(s)[0] == s[0]
  {
    assert StripOffset(s) == 0;
  }

  lemma TrimEndAppendSpace(s: string, t: string)
    requires AllSpace(t)
    ensures TrimEnd(s + t) == TrimEnd(s)
  {
    SpaceRunStartSkip(s + t, |s|, |s + t|);
    SpaceRunStartPrefix(s, t, |s|);
    assert (s + t)[..SpaceRunStart(s, |s|)] == s[..SpaceRunStart(s, |s|)];
  }

  lemma StripOfStripped(s: string)
    requires s == [] || (!IsSpace(s[0]) && !IsSpace(s[|s| - 1]))
    ensures Strip(s) == s
  {
    if s != [] {
      assert StripOffset(s) == 0;
      assert SpaceRunStart(s, |s|) == |s|;
    }
  }

  /** `line.strip()` of every line. */
  function StripAll(lines: seq<string>): (r: seq<string>)
    ensures |r| == |lines| && forall k | 0 <= k < |lines| :: r[k] == Strip(lines[k])
  {
    seq(|lines|, k requires 0 <= k < |lines| => Strip(lines[k]))
  }

  // ---------------------------------------------------------------------
  // Whitespace collapsing: re.sub(r'\s+', ' ', s).strip(),
  // which is also ' '.join(s.split())
  // ---------------------------------------------------------------------

  /** `re.sub(r'\s+', ' ', s)`: every maximal whitespace run becomes one blank. */
  function CollapseRuns(s: string): string
    decreases |s|
  {
    if s == [] then []
    else if IsSpace(s[0]) then " " + CollapseRuns(TrimStart(s))
    else [s[0]] + CollapseRuns(s[1..])
  }

  /**
   * What `CollapseRuns` leaves: its only whitespace is lone blanks, and it
   * starts with one exactly when the input starts with whitespace.
   */
  lemma {:induction false} CollapseRunsShape(s: string)
    ensures var r := CollapseRuns(s);
      && (|s| > 0 ==> |r| > 0 && (r[0] == ' ' <==> IsSpace(s[0])))
      && (forall i | 0 <= i < |r| :: IsSpace(r[i]) ==> r[i] == ' ')
      && NoDoubleBlank(r)
    decreases |s|
  {
    if s != [] {
      var t := if IsSpace(s[0]) then TrimStart(s) else s[1..];
      var c := CollapseRuns(t);
      var r := CollapseRuns(s);
      CollapseRunsShape(t);
      assert r == [r[0]] + c;
      assert forall i | 1 <= i < |r| :: r[i] == c[i - 1];
      assert forall i | 1 <= i < |r| - 1 :: BlankPair(r, i) == BlankPair(c, i - 1);
    }
  }

  /** Every character `CollapseRuns` produces is a blank or a non-whitespace character of its input, at index `j`. */
  lemma CollapseRunsSource(s: string, i: nat) returns (j: nat)
    requires i < |CollapseRuns(s)|
    ensures CollapseRuns(s)[i] != ' ' ==> j < |s| && s[j] == CollapseRuns(s)[i] && !IsSpace(s[j])
    decreases |s|
  {
    j := 0;
    if IsSpace(s[0]) {
      var t := TrimStart(s);
      assert CollapseRuns(s) == " " + CollapseRuns(t);
      if i > 0 {
        var j' := CollapseRunsSource(t, i - 1);
        assert CollapseRuns(s)[i] == CollapseRuns(t)[i - 1];
        if CollapseRuns(t)[i - 1] != ' ' {
          j := |s| - |t| + j';
          assert s[j] == t[j'];
        }
      }
    } else {
      assert CollapseRuns(s) == [s[0]] + CollapseRuns(s[1..]);
      if i > 0 {
        var j' := CollapseRunsSource(s[1..], i - 1);
        assert CollapseRuns(s)[i] == CollapseRuns(s[1..])[i - 1];
        j := j' + 1;
      }
    }
  }

  /** Blanks at `i` and at `i + 1`. */
  predicate BlankPair(r: string, i: nat)
    requires i + 1 < |r|
  {
    r[i] == ' ' && r[i + 1] == ' '
  }

  /** No two blanks in a row. */
  predicate NoDoubleBlank(r: string) {
    forall i | 0 <= i < |r| - 1 :: !BlankPair(r, i)
  }

  /** Words joined by single blanks: no whitespace but `' '`, none at the ends, never two in a row. */
  predicate SingleSpaced(r: string) {
    && (forall i | 0 <= i < |r| :: IsSpace(r[i]) ==> r[i] == ' ')
    && (r == [] || (r[0] != ' ' && r[|r| - 1] != ' '))
    && (NoDoubleBlank(r))
  }

  /** `re.sub(r'\s+', ' ', s).strip()`, equal to `' '.join(s.split())`. */
  function Squash(s: string): string {
    Strip(CollapseRuns(s))
  }

  /** `Squash` always gives single-spaced text. */
  lemma SquashShape(s: string)
    ensures SingleSpaced(Squash(s))
  {
    CollapseRunsShape(s);
    StripSingleSpaced(CollapseRuns(s));
  }

  /** Stripping text whose only whitespace is lone blanks leaves it single-spaced. */
  lemma StripSingleSpaced(c: string)
    requires forall i | 0 <= i < |c| :: IsSpace(c[i]) ==> c[i] == ' '
    requires NoDoubleBlank(c)
    ensures SingleSpaced(Strip(c))
  {
    SliceSingleSpaced(c, StripOffset(c), Strip(c));
  }

  lemma SliceSingleSpaced(c: string, k: nat, r: string)
    requires k + |r| <= |c| && r == c[k..k + |r|]
    requires forall i | 0 <= i < |c| :: IsSpace(c[i]) ==> c[i] == ' '
    requires NoDoubleBlank(c)
    ensures forall i | 0 <= i < |r| :: IsSpace(r[i]) ==> r[i] == ' '
    ensures NoDoubleBlank(r)
  {
    assert forall i | 0 <= i < |r| :: r[i] == c[k + i];
    assert forall i | 0 <= i < |r| - 1 :: BlankPair(r, i) == BlankPair(c, k + i);
  }

  lemma StripCharAt(c: string, i: nat)
    requires i < |Strip(c)|
    ensures StripOffset(c) + i < |c| && Strip(c)[i] == c[StripOffset(c) + i]
  {
  }

  /** Every character of `Squash(s)` is a blank or a non-whitespace character of `s`, at index `j`. */
  lemma SquashSource(s: string, i: nat) returns (j: nat)
    requires i < |Squash(s)|
    ensures Squash(s)[i] != ' ' ==> j < |s| && s[j] == Squash(s)[i] && !IsSpace(s[j])
  {
    var c := CollapseRuns(s);
    assert Squash(s) == Strip(c);
    StripCharAt(c, i);
    var k := StripOffset(c) + i;
    assert Squash(s)[i] == c[k];
    j := CollapseRunsSource(s, k);
  }

  /** Collapsing whitespace changes nothing in single-spaced text. */
  lemma {:induction false} CollapseSingleSpaced(y: string)
    requires (forall i | 0 <= i < |y| :: IsSpace(y[i]) ==> y[i] == ' ')
    requires NoDoubleBlank(y)
    ensures CollapseRuns(y) == y
    decreases |y|
  {
    if y != [] {
      assert forall i | 0 <= i < |y| - 2 :: BlankPair(y[1..], i) == BlankPair(y, i + 1);
      CollapseSingleSpaced(y[1..]);
      if |y| > 1 {
        assert !BlankPair(y, 0);
      }
      if IsSpace(y[0]) {
        assert TrimStart(y) == y[1..];
        assert y == " " + y[1..];
      } else {
        assert y == [y[0]] + y[1..];
      }
    }
  }

  /** Single-spaced text comes out of `Squash` unchanged. */
  lemma SquashSingleSpaced(y: string)
    requires SingleSpaced(y)
    ensures Squash(y) == y
  {
    CollapseSingleSpaced(y);
    StripOfStripped(y);
  }

  /** Whitespace at the end of the input never shows in the squashed form. */
  lemma CollapseRunsAppendSpace(s: string, t: string)
    requires AllSpace(t) && t != []
    ensures CollapseRuns(s + t) == CollapseRuns(s) + " " || CollapseRuns(s + t) == CollapseRuns(s)
    decreases |s|
  {
    if s == [] {
      assert s + t == t;
      AllSpaceTrimStart(t);
      assert CollapseRuns(t) == CollapseRuns(s) + " ";
    } else if IsSpace(s[0]) {
      var ts := TrimStart(s);
      if ts == [] {
        assert AllSpace(s + t);
        AllSpaceTrimStart(s + t);
        assert CollapseRuns(s + t) == CollapseRuns(s);
      } else {
        TrimStartAppend(s, t);
        CollapseRunsAppendSpace(ts, t);
        assert CollapseRuns(s + t) == " " + CollapseRuns(ts + t);
      }
    } else {
      assert (s + t)[1..] == s[1..] + t;
      CollapseRunsAppendSpace(s[1..], t);
      assert CollapseRuns(s + t) == [s[0]] + CollapseRuns(s[1..] + t);
    }
  }

  lemma AllSpaceTrimStart(s: string)
    requires AllSpace(s)
    ensures TrimStart(s) == []
  {
  }

  lemma TrimStartAppend(s: string, t: string)
    requires TrimStart(s) != []
    ensures TrimStart(s + t) == TrimStart(s) + t
    decreases |s|
  {
    if |s| > 0 && IsSpace(s[0]) {
      assert (s + t)[1..] == s[1..] + t;
      TrimStartAppend(s[1..], t);
    }
  }

  /** `Squash(s + t) == Squash(s)` when `t` is all whitespace. */
  lemma {:induction false} SquashAppendSpace(s: string, t: string)
    requires AllSpace(t)
    ensures Squash(s + t) == Squash(s)
  {
    if t == [] {
      assert s + t == s;
    } else {
      CollapseRunsAppendSpace(s, t);
      var c := CollapseRuns(s);
      var u := if CollapseRuns(s + t) == c then "" else " ";
      assert CollapseRuns(s + t) == c + u;
      StripAppendSpace(c, u);
    }
  }

  /** Whitespace appended to the input never survives `strip`. */
  lemma StripAppendSpace(c: string, u: string)
    requires AllSpace(u)
    ensures Strip(c + u) == Strip(c)
  {
    if TrimStart(c) == [] {
      assert AllSpace(c + u);
      AllSpaceTrimStart(c + u);
    } else {
      TrimStartAppend(c, u);
      TrimEndAppendSpace(TrimStart(c), u);
    }
  }

  // ---------------------------------------------------------------------
  // split and join on one separator character
  // ---------------------------------------------------------------------

  /** Number of occurrences of `c` in `s`. */
  function Count(s: string, c: char): nat {
    if s == [] then 0 else (if s[0] == c then 1 else 0) + Count(s[1..], c)
  }

  /** `s.split(sep)`: never empty, and no part contains the separator. */
  function Split(s: string, sep: char): (parts: seq<string>)
    ensures |parts| == Count(s, sep) + 1
    ensures forall p <- parts :: sep !in p
    decreases |s|
  {
    if s == [] then [""]
    else
      var rest := Split(s[1..], sep);
      if s[0] == sep then [""] + rest
      else [[s[0]] + rest[0]] + rest[1..]
  }

  /** `sep.join(parts)`. */
  function Join(parts: seq<string>, sep: char): string
    requires |parts| >= 1
  {
    if |parts| == 1 then parts[0] else parts[0] + [sep] + Join(parts[1..], sep)
  }

  /** Splitting then joining on the same separator gives back the string. */
  lemma {:induction false} JoinSplit(s: string, sep: char)
    ensures Join(Split(s, sep), sep) == s
    decreases |s|
  {
    if s != [] {
      var rest := Split(s[1..], sep);
      JoinSplit(s[1..], sep);
      if s[0] == sep {
        assert Split(s, sep) == [""] + rest;
        assert ([""] + rest)[1..] == rest;
      } else {
        var parts := Split(s, sep);
        assert parts == [[s[0]] + rest[0]] + rest[1..];
        if |rest| == 1 {
          assert Join(parts, sep) == [s[0]] + rest[0];
        } else {
          assert parts[1..] == rest[1..];
          assert Join(rest, sep) == rest[0] + [sep] + Join(rest[1..], sep);
        }
      }
    }
  }

  /** A separator-free string is its own single part. */
  lemma SplitNoSeparator(s: string, sep: char)
    requires sep !in s
    ensures Split(s, sep) == [s]
    decreases |s|
  {
    if s != [] {
      SplitNoSeparator(s[1..], sep);
      assert [s[0]] + s[1..] == s;
    }
  }

  /** A separator-free first part is split off on its own. */
  lemma {:induction false} SplitCons(a: string, rest: string, sep: char)
    requires sep !in a
    ensures Split(a + [sep] + rest, sep) == [a] + Split(rest, sep)
    decreases |a|
  {
    if a == [] {
      assert a + [sep] + rest == [sep] + rest;
      assert ([sep] + rest)[1..] == rest;
    } else {
      assert (a + [sep] + rest)[1..] == a[1..] + [sep] + rest;
      SplitCons(a[1..], rest, sep);
      assert [a[0]] + a[1..] == a;
    }
  }

  /** A string with exactly one separator splits around it. */
  lemma {:induction false} SplitOneSeparator(a: string, b: string, sep: char)
    requires sep !in a && sep !in b
    ensures Split(a + [sep] + b, sep) == [a, b]
    decreases |a|
  {
    if a == [] {
      assert a + [sep] + b == [sep] + b;
      assert ([sep] + b)[1..] == b;
      SplitNoSeparator(b, sep);
    } else {
      assert (a + [sep] + b)[1..] == a[1..] + [sep] + b;
      SplitOneSeparator(a[1..], b, sep);
      assert [a[0]] + a[1..] == a;
    }
  }

  // ---------------------------------------------------------------------
  // Substring search: `pat in text`
  // ---------------------------------------------------------------------

  /** `pat in text` for strings. */
  predicate Contains(text: string, pat: string)
    decreases |text|
  {
    pat <= text || (|text| > 0 && Contains(text[1..], pat))
  }

  /** `pat` occurs in `text` starting at index `i`. */
  predicate OccursAt(text: string, pat: string, i: int) {
    0 <= i && i + |pat| <= |text| && text[i..i + |pat|] == pat
  }

  /** `pat in text` holds exactly when `pat` occurs at some position of `text`. */
  lemma {:induction false} ContainsIff(text: string, pat: string)
    ensures Contains(text, pat) <==> exists i :: OccursAt(text, pat, i)
    decreases |text|
  {
    if pat <= text {
      assert OccursAt(text, pat, 0);
    } else if |text| > 0 {
      ContainsIff(text[1..], pat);
      assert Contains(text, pat) == Contains(text[1..], pat);
      if exists i :: OccursAt(text, pat, i) {
        var i :| OccursAt(text, pat, i);
        OccursLater(text, pat, i);
      }
      if Contains(text[1..], pat) {
        var j :| OccursAt(text[1..], pat, j);
        OccursShifted(text, pat, j);
      }
    }
  }

  /** An occurrence that is not a prefix is an occurrence in the tail. */
  lemma OccursLater(text: string, pat: string, i: int)
    requires OccursAt(text, pat, i) && !(pat <= text)
    ensures i > 0 && OccursAt(text[1..], pat, i - 1)
  {
    assert text[1..][i - 1..i - 1 + |pat|] == text[i..i + |pat|];
  }

  /** An occurrence in the tail is one in the whole text, one place on. */
  lemma OccursShifted(text: string, pat: string, j: int)
    requires |text| > 0 && OccursAt(text[1..], pat, j)
    ensures OccursAt(text, pat, j + 1)
  {
    assert text[1..][j..j + |pat|] == text[j + 1..j + 1 + |pat|];
  }

  lemma ContainsEmpty(text: string)
    ensures Contains(text, "")
  {
  }

  /** `text` occurs in itself and inside any string that ends or starts with it. */
  lemma ContainsSelf(text: string)
    ensures Contains(text, text)
  {
  }

  // ---------------------------------------------------------------------
  // str.replace
  // ---------------------------------------------------------------------

  /** `s.replace(a, b)` for single characters. */
  function ReplaceChar(s: string, a: char, b: char): (r: string)
    ensures |r| == |s|
    ensures a != b ==> a !in r
    ensures forall i | 0 <= i < |s| :: r[i] == (if s[i] == a then b else s[i])
  {
    seq(|s|, i requires 0 <= i < |s| => if s[i] == a then b else s[i])
  }

  /** `s.replace(w, '')`: every non-overlapping occurrence of `w`, scanned left to right, removed. */
  function RemoveAll(s: string, w: string): (r: string)
    ensures |r| <= |s|
    decreases |s|
  {
    if s == [] || w == [] then s
    else if w <= s then RemoveAll(s[|w|..], w)
    else [s[0]] + RemoveAll(s[1..], w)
  }

  /** A string in which `w` does not occur is left as it is. */
  lemma {:induction false} RemoveAllAbsent(s: string, w: string)
    requires !Contains(s, w)
    ensures RemoveAll(s, w) == s
    decreases |s|
  {
    if s != [] {
      RemoveAllAbsent(s[1..], w);
    }
  }

  // ---------------------------------------------------------------------
  // Digits, numbers, zfill
  // ---------------------------------------------------------------------

  predicate AllDigits(s: string) {
    forall i | 0 <= i < |s| :: IsDigit(s[i])
  }

  function DigitOf(c: char): nat
    requires IsDigit(c)
    ensures DigitOf(c) < 10
  {
    c as int - '0' as int
  }

  function DigitChar(d: nat): (c: char)
    requires d < 10
    ensures IsDigit(c) && DigitOf(c) == d
  {
    ('0' as int + d) as char
  }

  function Pow10(n: nat): nat
    ensures Pow10(n) >= 1
  {
    if n == 0 then 1 else 10 * Pow10(n - 1)
  }

  /** The number a run of decimal digits denotes. */
  function DigitsValue(s: string): nat
    requires AllDigits(s)
    ensures DigitsValue(s) < Pow10(|s|)
  {
    if s == [] then 0 else 10 * DigitsValue(s[..|s| - 1]) + DigitOf(s[|s| - 1])
  }

  /** `n` written with exactly `width` digits, zero-padded on the left (`%04d`). */
  function Pad(n: nat, width: nat): (r: string)
    ensures |r| == width && AllDigits(r)
  {
    if width == 0 then [] else Pad(n / 10, width - 1) + [DigitChar(n % 10)]
  }

  /** Reading a padded number back gives the number. */
  lemma {:induction false} PadValue(n: nat, width: nat)
    requires n < Pow10(width)
    ensures DigitsValue(Pad(n, width)) == n
  {
    if width > 0 {
      var p := Pad(n, width);
      assert p[..|p| - 1] == Pad(n / 10, width - 1);
      PadValue(n / 10, width - 1);
    }
  }

  /** Python's `int()` body: digits with single underscores between them. */
  predicate IsIntLiteral(u: string) {
    && |u| > 0 && IsDigit(u[0]) && IsDigit(u[|u| - 1])
    && (forall i | 0 <= i < |u| :: IsDigit(u[i]) || (u[i] == '_' && i + 1 < |u| && IsDigit(u[i + 1])))
  }

  function DropUnderscores(u: string): (d: string)
    requires forall i | 0 <= i < |u| :: IsDigit(u[i]) || u[i] == '_'
    ensures AllDigits(d) && |d| <= |u|
  {
    if u == [] then [] else (if u[0] == '_' then [] else [u[0]]) + DropUnderscores(u[1..])
  }

  /** `int(s)` on a string: `None` where Python raises `ValueError`. */
  function PyInt(s: string): Option<int> {
    var t := Strip(s);
    var signed := |t| > 0 && (t[0] == '+' || t[0] == '-');
    var body := if signed then t[1..] else t;
    if !IsIntLiteral(body) then None
    else
      var n: int := DigitsValue(DropUnderscores(body));
      Some(if signed && t[0] == '-' then -n else n)
  }

  /** `int()` of a plain run of digits is the number the digits denote. */
  lemma PyIntOfDigits(s: string)
    requires AllDigits(s) && s != []
    ensures PyInt(s) == Some(DigitsValue(s))
  {
    StripOfStripped(s);
    assert Strip(s) == s;
    assert !(s[0] == '+' || s[0] == '-');
    assert IsIntLiteral(s);
    DropUnderscoresDigits(s);
  }

  lemma DropUnderscoresDigits(s: string)
    requires AllDigits(s)
    ensures DropUnderscores(s) == s
  {
  }

  function Zeros(n: nat): (z: string)
    ensures |z| == n && forall i | 0 <= i < n :: z[i] == '0'
  {
    seq(n, _ => '0')
  }

  /** `s.zfill(width)`: zeros on the left, after a leading sign if there is one. */
  function ZFill(s: string, width: nat): (r: string)
    ensures |r| == if |s| >= width then |s| else width
    ensures |s| >= width ==> r == s
    ensures AllDigits(s) ==> AllDigits(r) && r[|r| - |s|..] == s
  {
    if |s| >= width then s
    else if |s| > 0 && (s[0] == '+' || s[0] == '-') then [s[0]] + Zeros(width - |s|) + s[1..]
    else Zeros(width - |s|) + s
  }

  // ---------------------------------------------------------------------
  // String ordering: Python's `<` on str (code point by code point)
  // ---------------------------------------------------------------------

  /** `a < b` on Python strings. */
  predicate LexLess(a: string, b: string) {
    |b| > 0 && (|a| == 0 || a[0] < b[0] || (a[0] == b[0] && LexLess(a[1..], b[1..])))
  }

  /** `a <= b` on Python strings. */
  predicate LexLessEq(a: string, b: string) {
    a == b || LexLess(a, b)
  }

  /** `min(a, b)`: the first argument unless the second is smaller. */
  function MinStr(a: string, b: string): string {
    if LexLess(b, a) then b else a
  }

  /** `max(a, b)`: the first argument unless the second is larger. */
  function MaxStr(a: string, b: string): string {
    if LexLess(a, b) then b else a
  }

  lemma {:induction false} LexLessIrreflexive(a: string)
    ensures !LexLess(a, a)
  {
    if |a| > 0 { LexLessIrreflexive(a[1..]); }
  }

  lemma {:induction false} LexLessTransitive(a: string, b: string, c: string)
    requires LexLess(a, b) && LexLess(b, c)
    ensures LexLess(a, c)
  {
    if |a| > 0 && a[0] == b[0] && b[0] == c[0] {
      LexLessTransitive(a[1..], b[1..], c[1..]);
    }
  }

  lemma {:induction false} LexLessTotal(a: string, b: string)
    ensures a == b || LexLess(a, b) || LexLess(b, a)
  {
    if |a| > 0 && |b| > 0 && a[0] == b[0] {
      LexLessTotal(a[1..], b[1..]);
      if a[1..] == b[1..] {
        assert a == [a[0]] + a[1..] && b == [b[0]] + b[1..];
      }
    }
  }

  lemma LexLessAsymmetric(a: string, b: string)
    requires LexLess(a, b)
    ensures !LexLess(b, a)
  {
    if LexLess(b, a) {
      LexLessTransitive(a, b, a);
      LexLessIrreflexive(a);
    }
  }

  lemma LexLessEqTransitive(a: string, b: string, c: string)
    requires LexLessEq(a, b) && LexLessEq(b, c)
    ensures LexLessEq(a, c)
  {
    if a != b && b != c { LexLessTransitive(a, b, c); }
  }

  /** `min` is below both arguments and is one of them; `max` is above both and is one of them. */
  lemma {:induction false} MinMaxBounds(a: string, b: string)
    ensures MinStr(a, b) in [a, b] && LexLessEq(MinStr(a, b), a) && LexLessEq(MinStr(a, b), b)
    ensures MaxStr(a, b) in [a, b] && LexLessEq(a, MaxStr(a, b)) && LexLessEq(b, MaxStr(a, b))
  {
    LexLessTotal(a, b);
  }
}
