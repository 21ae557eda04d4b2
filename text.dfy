/**
 * The Python string operations the generators are built from: `str.replace`,
 * the sequential placeholder loop, the non-greedy `{{#X}}...{{/X}}` removal done
 * with `re.sub(..., flags=re.DOTALL)`, `str.join`, `str.strip` and `str.lower`.
 */
module Text {
  import opened Wrappers

  // ---------------------------------------------------------------------------
  // Occurrences
  // ---------------------------------------------------------------------------

  /** `p` occurs in `s` starting at index `i`. */
  predicate OccursAt(s: string, p: string, i: int) {
    0 <= i && i + |p| <= |s| && s[i..i + |p|] == p
  }

  /** `p in s` */
  predicate Contains(s: string, p: string) {
    exists i :: 0 <= i <= |s| && OccursAt(s, p, i)
  }

  predicate StartsWith(s: string, p: string) {
    |p| <= |s| && s[..|p|] == p
  }

  predicate EndsWith(s: string, p: string) {
    |p| <= |s| && s[|s| - |p|..] == p
  }

  /** A string ends with whatever was appended to it last. */
  lemma EndsWithAppend(s: string, p: string)
    ensures EndsWith(s + p, p)
  {
    assert (s + p)[|s|..] == p;
  }

  /** A string starts with whatever it was appended to. */
  lemma StartsWithAppend(s: string, p: string)
    ensures StartsWith(s + p, s)
  {
    assert (s + p)[..|s|] == s;
  }

  /** The first occurrence of `p` at or after index `from`, as `str.find(p, from)` finds it. */
  function FindFrom(s: string, p: string, from: nat): (r: Option<nat>)
    requires p != []
    ensures r.Some? ==> from <= r.value && OccursAt(s, p, r.value)
    ensures forall j :: from <= j && (r.None? || j < r.value) ==> !OccursAt(s, p, j)
    decreases |s| - from
  {
    if from + |p| > |s| then None
    else if s[from..from + |p|] == p then Some(from)
    else FindFrom(s, p, from + 1)
  }

  /** An occurrence inside `s[1..]` is an occurrence inside `s`, one place later. */
  lemma OccursAtTail(s: string, p: string, i: int)
    requires s != [] && OccursAt(s[1..], p, i)
    ensures OccursAt(s, p, i + 1)
  {
    assert s[i + 1..i + 1 + |p|] == s[1..][i..i + |p|];
  }

  /** An occurrence after the first `k` characters is an occurrence in the rest. */
  lemma OccursAtDrop(s: string, p: string, k: nat, i: int)
    requires k <= |s| && OccursAt(s[k..], p, i)
    ensures OccursAt(s, p, i + k)
  {
    assert s[i + k..i + k + |p|] == s[k..][i..i + |p|];
  }

  // ---------------------------------------------------------------------------
  // str.replace
  // ---------------------------------------------------------------------------

  /**
   * `s.replace(pat, rep)`: scans left to right, replaces every non-overlapping
   * occurrence of `pat` and does not rescan the replacement.
   */
  function ReplaceAll(s: string, pat: string, rep: string): string
    requires pat != []
    decreases |s|
  {
    if |s| < |pat| then s
    else if s[..|pat|] == pat then rep + ReplaceAll(s[|pat|..], pat, rep)
    else [s[0]] + ReplaceAll(s[1..], pat, rep)
  }

  /** Replacing a pattern that does not occur changes nothing. */
  lemma {:induction false} ReplaceAbsent(s: string, pat: string, rep: string)
    requires pat != []
    requires !Contains(s, pat)
    ensures ReplaceAll(s, pat, rep) == s
    decreases |s|
  {
    if |s| >= |pat| {
      assert !OccursAt(s, pat, 0);
      assert !Contains(s[1..], pat) by {
        forall i | OccursAt(s[1..], pat, i) ensures false {
          OccursAtTail(s, pat, i);
        }
      }
      ReplaceAbsent(s[1..], pat, rep);
      assert [s[0]] + s[1..] == s;
    }
  }

  /** `s.replace(p, p) == s`: replacing a pattern by itself is the identity. */
  lemma {:induction false} ReplaceSelf(s: string, p: string)
    requires p != []
    ensures ReplaceAll(s, p, p) == s
    decreases |s|
  {
    if |s| >= |p| {
      if s[..|p|] == p {
        ReplaceSelf(s[|p|..], p);
        assert s[..|p|] + s[|p|..] == s;
      } else {
        ReplaceSelf(s[1..], p);
        assert [s[0]] + s[1..] == s;
      }
    }
  }

  /** A text that is exactly the pattern becomes exactly the replacement. */
  lemma ReplaceWhole(p: string, r: string)
    requires p != []
    ensures ReplaceAll(p, p, r) == r
  {
    assert p[..|p|] == p;
    assert p[|p|..] == [];
  }

  /** Text without `{` in front is kept as it is when the pattern starts with `{`. */
  lemma {:induction false} ReplaceKeep(a: string, u: string, pat: string, rep: string)
    requires StartsWith(pat, "{") && NoOpenBrace(a)
    ensures ReplaceAll(a + u, pat, rep) == a + ReplaceAll(u, pat, rep)
    decreases |a|
  {
    if a == [] {
      assert a + u == u;
    } else {
      HeadThenRest(a, u);
      ReplaceSkip(a[0], a[1..] + u, pat, rep);
      ReplaceKeep(a[1..], u, pat, rep);
      HeadThenRest(a, ReplaceAll(u, pat, rep));
    }
  }

  /** A character that cannot start the pattern is kept. */
  lemma ReplaceSkip(x: char, t: string, pat: string, rep: string)
    requires pat != [] && x != pat[0]
    ensures ReplaceAll([x] + t, pat, rep) == [x] + ReplaceAll(t, pat, rep)
  {
    var s := [x] + t;
    assert s[1..] == t;
    if |s| >= |pat| {
      assert s[..|pat|][0] == x;
    }
  }

  /** An occurrence at the very start is replaced and the scan goes on after it. */
  lemma ReplaceAtStart(pat: string, u: string, rep: string)
    requires pat != []
    ensures ReplaceAll(pat + u, pat, rep) == rep + ReplaceAll(u, pat, rep)
  {
    var s := pat + u;
    assert s[..|pat|] == pat;
    assert s[|pat|..] == u;
  }

  /**
   * A `{{`-marker that differs from the pattern in its third character, and
   * has no other `{`, is passed over as it is.
   */
  lemma ReplaceSkipMarker(q: string, rest: string, pat: string, rep: string)
    requires |q| > 2 && |pat| > 2 && q[..2] == "{{" && pat[..2] == "{{"
    requires q[2] != pat[2] && NoOpenBrace(q[2..])
    ensures ReplaceAll(q + rest, pat, rep) == q + ReplaceAll(rest, pat, rep)
  {
    var t := q[1..];
    var s := q + rest;
    assert ReplaceAll(t + rest, pat, rep) == t + ReplaceAll(rest, pat, rep) by {
      assert t[..1] == "{" && t[1..] == q[2..];
      ReplaceSkipBrace(t, rest, pat, rep);
    }
    assert ReplaceAll(s, pat, rep) == [q[0]] + ReplaceAll(t + rest, pat, rep) by {
      assert s == [q[0]] + (t + rest);
      if |s| >= |pat| {
        assert s[..|pat|][2] == q[2];
        ReplaceNoMatchHere(s, pat, rep);
      } else {
        ShortUnchanged(s, pat, rep);
        ShortUnchanged(t + rest, pat, rep);
      }
    }
    assert q == [q[0]] + t;
  }

  /** The second `{` of a marker, followed by something other than `{`, is passed over. */
  lemma ReplaceSkipBrace(t: string, rest: string, pat: string, rep: string)
    requires |t| > 1 && |pat| > 2 && t[..1] == "{" && pat[..2] == "{{" && NoOpenBrace(t[1..])
    ensures ReplaceAll(t + rest, pat, rep) == t + ReplaceAll(rest, pat, rep)
  {
    assert StartsWith(pat, "{") by {
      assert pat[0] == pat[..2][0];
      assert pat[..1] == [pat[0]];
    }
    var s := t + rest;
    var u := t[1..] + rest;
    assert s == [t[0]] + u;
    ReplaceKeep(t[1..], rest, pat, rep);
    if |s| >= |pat| {
      assert s[..|pat|][1] == t[1] != '{' == pat[..2][1];
      ReplaceNoMatchHere(s, pat, rep);
    } else {
      ShortUnchanged(s, pat, rep);
      ShortUnchanged(u, pat, rep);
    }
    assert t == [t[0]] + t[1..];
  }

  /** No occurrence at the start: the first character is kept and the scan moves on. */
  lemma ReplaceNoMatchHere(s: string, pat: string, rep: string)
    requires pat != [] && |s| >= |pat| && s[..|pat|] != pat
    ensures ReplaceAll(s, pat, rep) == [s[0]] + ReplaceAll(s[1..], pat, rep)
  {
  }

  /** Text shorter than the pattern is left as it is. */
  lemma ShortUnchanged(s: string, pat: string, rep: string)
    requires pat != [] && |s| < |pat|
    ensures ReplaceAll(s, pat, rep) == s
  {
  }

  /** A template marker: `{{`, then text without `{`. */
  predicate Marker(m: string) {
    |m| > 2 && m[..2] == "{{" && NoOpenBrace(m[2..])
  }

  lemma MarkerBrace(m: string)
    requires Marker(m)
    ensures StartsWith(m, "{")
  {
    assert m[0] == m[..2][0];
    assert m[..1] == [m[0]];
  }

  /**
   * Removing the opening marker `o` of a block that holds the placeholder `p`
   * and ends with `cl`, in text whose other parts have no `{`.
   */
  lemma DropOpenMarker(o: string, p: string, cl: string, a: string, b1: string, b2: string, c: string)
    requires Marker(o) && Marker(p) && Marker(cl) && o[2] != p[2] && o[2] != cl[2]
    requires NoOpenBrace(a) && NoOpenBrace(b1) && NoOpenBrace(b2) && NoOpenBrace(c)
    ensures ReplaceAll(a + (o + (b1 + (p + (b2 + (cl + c))))), o, "") == a + (b1 + (p + (b2 + (cl + c))))
  {
    var rest := p + (b2 + (cl + c));
    MarkerBrace(o);
    assert ReplaceAll(rest, o, "") == rest by {
      OtherMarkersKept(o, p, cl, b2, c, "");
    }
    assert ReplaceAll(b1 + rest, o, "") == b1 + rest by {
      ReplaceKeep(b1, rest, o, "");
    }
    assert ReplaceAll(o + (b1 + rest), o, "") == b1 + rest by {
      ReplaceAtStart(o, b1 + rest, "");
    }
    ReplaceKeep(a, o + (b1 + rest), o, "");
  }

  /** Markers other than the pattern, and text without `{`, are all kept. */
  lemma OtherMarkersKept(pat: string, p: string, cl: string, b2: string, c: string, rep: string)
    requires Marker(pat) && Marker(p) && Marker(cl) && pat[2] != p[2] && pat[2] != cl[2]
    requires NoOpenBrace(b2) && NoOpenBrace(c)
    ensures ReplaceAll(p + (b2 + (cl + c)), pat, rep) == p + (b2 + (cl + c))
  {
    MarkerThenPlainKept(pat, cl, c, rep);
    ReplaceKeep(b2, cl + c, pat, rep);
    ReplaceSkipMarker(p, b2 + (cl + c), pat, rep);
  }

  /** A marker other than the pattern followed by text without `{` is kept. */
  lemma MarkerThenPlainKept(pat: string, q: string, c: string, rep: string)
    requires Marker(pat) && Marker(q) && pat[2] != q[2] && NoOpenBrace(c)
    ensures ReplaceAll(q + c, pat, rep) == q + c
  {
    MarkerBrace(pat);
    NoPlaceholderWithoutBrace(c, pat);
    ReplaceAbsent(c, pat, rep);
    ReplaceSkipMarker(q, c, pat, rep);
  }

  /** Removing the closing marker `cl` after the placeholder `p`. */
  lemma DropCloseMarker(p: string, cl: string, a: string, b2: string, c: string)
    requires Marker(p) && Marker(cl) && cl[2] != p[2]
    requires NoOpenBrace(a) && NoOpenBrace(b2) && NoOpenBrace(c)
    ensures ReplaceAll(a + (p + (b2 + (cl + c))), cl, "") == a + (p + (b2 + c))
  {
    MarkerBrace(cl);
    PlainRemoved(cl, b2, c);
    ReplaceSkipMarker(p, b2 + (cl + c), cl, "");
    ReplaceKeep(a, p + (b2 + (cl + c)), cl, "");
  }

  /** Removing a marker that comes between two texts without `{`. */
  lemma PlainRemoved(m: string, b: string, c: string)
    requires Marker(m) && NoOpenBrace(b) && NoOpenBrace(c)
    ensures ReplaceAll(b + (m + c), m, "") == b + c
  {
    MarkerBrace(m);
    NoPlaceholderWithoutBrace(c, m);
    ReplaceAbsent(c, m, "");
    ReplaceAtStart(m, c, "");
    ReplaceKeep(b, m + c, m, "");
  }

  /** Filling in the one placeholder `p` of text whose other parts have no `{`. */
  lemma FillPlaceholder(p: string, a: string, b: string, rep: string)
    requires Marker(p) && NoOpenBrace(a) && NoOpenBrace(b)
    ensures ReplaceAll(a + (p + b), p, rep) == a + (rep + b)
  {
    MarkerBrace(p);
    NoPlaceholderWithoutBrace(b, p);
    ReplaceAbsent(b, p, rep);
    ReplaceAtStart(p, b, rep);
    ReplaceKeep(a, p + b, p, rep);
  }

  /**
   * Dropping an opening and a closing marker and then filling the
   * placeholder between them keeps the block's text and puts `rep` in the
   * placeholder's place.
   */
  lemma ShowBlock(o: string, p: string, cl: string, a: string, b1: string, b2: string, c: string, rep: string)
    requires Marker(o) && Marker(p) && Marker(cl) && o[2] != p[2] && o[2] != cl[2] && cl[2] != p[2]
    requires NoOpenBrace(a) && NoOpenBrace(b1) && NoOpenBrace(b2) && NoOpenBrace(c)
    ensures ReplaceAll(ReplaceAll(ReplaceAll(a + o + b1 + p + b2 + cl + c, o, ""), cl, ""), p, rep) ==
      a + b1 + rep + b2 + c
  {
    var ab1 := a + b1;
    var unopened := ab1 + (p + (b2 + (cl + c)));
    var unmarked := ab1 + (p + (b2 + c));
    assert NoOpenBrace(ab1);
    assert ReplaceAll(a + o + b1 + p + b2 + cl + c, o, "") == unopened by {
      assert a + o + b1 + p + b2 + cl + c == a + (o + (b1 + (p + (b2 + (cl + c)))));
      DropOpenMarker(o, p, cl, a, b1, b2, c);
      assert a + (b1 + (p + (b2 + (cl + c)))) == unopened;
    }
    assert ReplaceAll(unopened, cl, "") == unmarked by {
      DropCloseMarker(p, cl, ab1, b2, c);
    }
    assert ReplaceAll(unmarked, p, rep) == a + b1 + rep + b2 + c by {
      FillPlaceholder(p, ab1, b2 + c, rep);
      assert ab1 + (rep + (b2 + c)) == a + b1 + rep + b2 + c;
    }
  }

  /** Removing a pattern never makes the text longer. */
  lemma {:induction false} ReplaceByEmptyShrinks(s: string, pat: string)
    requires pat != []
    ensures |ReplaceAll(s, pat, "")| <= |s|
    decreases |s|
  {
    if |s| >= |pat| {
      if s[..|pat|] == pat {
        ReplaceByEmptyShrinks(s[|pat|..], pat);
      } else {
        ReplaceByEmptyShrinks(s[1..], pat);
      }
    }
  }

  /** Removing a pattern that occurs makes the text strictly shorter. */
  lemma {:induction false} ReplaceByEmptyShorter(s: string, pat: string)
    requires pat != [] && Contains(s, pat)
    ensures |ReplaceAll(s, pat, "")| < |s|
    decreases |s|
  {
    var i :| 0 <= i <= |s| && OccursAt(s, pat, i);
    if s[..|pat|] == pat {
      ReplaceByEmptyShrinks(s[|pat|..], pat);
    } else {
      assert i > 0;
      assert s[1..][i - 1..i - 1 + |pat|] == s[i..i + |pat|];
      assert OccursAt(s[1..], pat, i - 1);
      ReplaceByEmptyShorter(s[1..], pat);
    }
  }

  // ---------------------------------------------------------------------------
  // The placeholder loop: `for placeholder, value in replacements.items(): s = s.replace(...)`
  // ---------------------------------------------------------------------------

  /** A substitution table in dict insertion order. */
  type Table = seq<(string, string)>

  predicate Patterns(t: Table) {
    forall k :: 0 <= k < |t| ==> t[k].0 != []
  }

  /** The replace loop: each pair is applied to the result of the pairs before it. */
  function ApplyAll(s: string, t: Table): string
    requires Patterns(t)
    decreases |t|
  {
    if t == [] then s else ApplyAll(ReplaceAll(s, t[0].0, t[0].1), t[1..])
  }

  /** Pairs whose pattern does not occur in the text can be skipped. */
  lemma {:induction false} ApplyAllSkip(s: string, t: Table, k: nat)
    requires Patterns(t) && k <= |t|
    requires forall i :: 0 <= i < k ==> !Contains(s, t[i].0)
    ensures ApplyAll(s, t) == ApplyAll(s, t[k..])
    decreases k
  {
    if k > 0 {
      ReplaceAbsent(s, t[0].0, t[0].1);
      assert t[1..][k - 1..] == t[k..];
      ApplyAllSkip(s, t[1..], k - 1);
    }
  }

  /** A text no pattern of the table occurs in passes through the loop unchanged. */
  lemma ApplyAllAbsent(s: string, t: Table)
    requires Patterns(t)
    requires forall i :: 0 <= i < |t| ==> !Contains(s, t[i].0)
    ensures ApplyAll(s, t) == s
  {
    ApplyAllSkip(s, t, |t|);
  }

  // ---------------------------------------------------------------------------
  // Placeholders `{{NAME}}`
  // ---------------------------------------------------------------------------

  predicate NoBraces(s: string) {
    forall i :: 0 <= i < |s| ==> s[i] != '{' && s[i] != '}'
  }

  predicate NoOpenBrace(s: string) {
    forall i :: 0 <= i < |s| ==> s[i] != '{'
  }

  function Placeholder(name: string): (r: string)
    ensures |r| == |name| + 4
  {
    "{{" + name + "}}"
  }

  /** One brace-free placeholder occurs inside another only when the two are the same. */
  lemma PlaceholderInPlaceholder(a: string, b: string)
    requires NoBraces(a) && NoBraces(b)
    requires Contains(Placeholder(b), Placeholder(a))
    ensures a == b
  {
    var pa, pb := Placeholder(a), Placeholder(b);
    var i :| 0 <= i <= |pb| && OccursAt(pb, pa, i);
    assert pb[i..i + |pa|] == pa;
    // Past its first two characters a placeholder holds no `{`, and `}` only in its last two.
    assert forall k :: 2 <= k < |b| + 2 ==> pb[k] == b[k - 2];
    assert forall k :: |b| + 2 <= k < |pb| ==> pb[k] == '}';
    assert pb[i + 1] == pa[1] == '{';
    assert i == 0;
    assert pb[|a| + 2] == pa[|a| + 2] == '}';
    assert |a| == |b|;
    assert a == pa[2..|a| + 2] == pb[2..|b| + 2] == b;
  }

  /** A text without `{` contains no placeholder. */
  lemma NoPlaceholderWithoutBrace(s: string, p: string)
    requires NoOpenBrace(s) && StartsWith(p, "{")
    ensures !Contains(s, p)
  {
    forall i | 0 <= i <= |s| && i + |p| <= |s| ensures !OccursAt(s, p, i) {
      assert s[i..i + |p|][0] == s[i] != p[0];
    }
  }

  // ---------------------------------------------------------------------------
  // re.sub(OPEN + '.*?' + CLOSE, '', s, flags=re.DOTALL)
  // ---------------------------------------------------------------------------

  /**
   * Removes every block from an `open` marker to the first `close` marker after
   * it, left to right. An `open` with no `close` after it leaves the rest of the
   * text as it is (no later `open` can have one either), and text produced by a
   * removal is not scanned again.
   */
  function RemoveBlocks(s: string, open: string, close: string): string
    requires open != [] && close != []
    decreases |s|
  {
    if |s| < |open| then s
    else if s[..|open|] == open then
      match FindFrom(s, close, |open|)
      case None => s
      case Some(j) => RemoveBlocks(s[j + |close|..], open, close)
    else [s[0]] + RemoveBlocks(s[1..], open, close)
  }

  /** Text without an opening marker is left as it is. */
  lemma {:induction false} RemoveBlocksAbsent(s: string, open: string, close: string)
    requires open != [] && close != []
    requires !Contains(s, open)
    ensures RemoveBlocks(s, open, close) == s
    decreases |s|
  {
    if |s| >= |open| {
      assert !OccursAt(s, open, 0);
      assert !Contains(s[1..], open) by {
        forall i | 0 <= i <= |s[1..]| ensures !OccursAt(s[1..], open, i) {
          if OccursAt(s[1..], open, i) {
            OccursAtTail(s, open, i);
          }
        }
      }
      RemoveBlocksAbsent(s[1..], open, close);
      assert [s[0]] + s[1..] == s;
    }
  }

  /**
   * The first block goes with everything up to its first closing marker: text
   * before the block is kept, the rest is processed again. Markers start with
   * `{`, so brace-free text around them cannot hold a partial marker.
   */
  lemma RemoveFirstBlock(a: string, b: string, c: string, open: string, close: string)
    requires StartsWith(open, "{") && StartsWith(close, "{")
    requires NoOpenBrace(a) && NoOpenBrace(b)
    ensures RemoveBlocks(a + open + b + close + c, open, close) == a + RemoveBlocks(c, open, close)
  {
    var u := open + b + close + c;
    assert a + open + b + close + c == a + u;
    RemoveBlocksKeep(a, u, open, close);
    RemoveBlockAtStart(b, c, open, close);
  }

  /** Text without `{` in front of the first marker is kept as it is. */
  lemma {:induction false} RemoveBlocksKeep(a: string, u: string, open: string, close: string)
    requires StartsWith(open, "{") && close != [] && NoOpenBrace(a)
    ensures RemoveBlocks(a + u, open, close) == a + RemoveBlocks(u, open, close)
    decreases |a|
  {
    if a == [] {
      assert a + u == u;
    } else {
      var t := a[1..] + u;
      HeadThenRest(a, u);
      RemoveBlocksSkip(a[0], t, open, close);
      RemoveBlocksKeep(a[1..], u, open, close);
      HeadThenRest(a, RemoveBlocks(u, open, close));
    }
  }

  lemma HeadThenRest(a: string, u: string)
    requires a != []
    ensures [a[0]] + (a[1..] + u) == a + u
  {
    assert [a[0]] + a[1..] == a;
  }

  /** A character that cannot start the opening marker is kept. */
  lemma RemoveBlocksSkip(x: char, t: string, open: string, close: string)
    requires open != [] && close != [] && x != open[0]
    ensures RemoveBlocks([x] + t, open, close) == [x] + RemoveBlocks(t, open, close)
  {
    var s := [x] + t;
    assert s[1..] == t;
    if |s| >= |open| {
      assert s[..|open|][0] == x;
    }
  }

  /** A block at the very start goes, up to the first closing marker. */
  lemma RemoveBlockAtStart(b: string, c: string, open: string, close: string)
    requires StartsWith(open, "{") && StartsWith(close, "{")
    requires NoOpenBrace(b)
    ensures RemoveBlocks(open + b + close + c, open, close) == RemoveBlocks(c, open, close)
  {
    var s := open + b + close + c;
    var j := |open| + |b|;
    assert s[..|open|] == open;
    assert s[j..j + |close|] == close;
    MarkerAfter(s, |open|, j, close);
    assert s[j + |close|..] == c;
  }

  /** Searching from `from`, a marker that starts with `{` is first found after text without `{`. */
  lemma MarkerAfter(s: string, from: nat, k: nat, p: string)
    requires StartsWith(p, "{") && from <= k && k + |p| <= |s| && s[k..k + |p|] == p
    requires forall j :: from <= j < k ==> s[j] != '{'
    ensures FindFrom(s, p, from) == Some(k)
  {
    forall j | from <= j < k && j + |p| <= |s| ensures !OccursAt(s, p, j) {
      assert s[j..j + |p|][0] == s[j];
    }
    FindFirst(s, p, from, k);
  }

  /** `FindFrom` returns the first occurrence: one at `k` with none between `from` and `k`. */
  lemma {:induction false} FindFirst(s: string, p: string, from: nat, k: nat)
    requires p != [] && from <= k && OccursAt(s, p, k)
    requires forall j :: from <= j < k ==> !OccursAt(s, p, j)
    ensures FindFrom(s, p, from) == Some(k)
  {
  }

  // ---------------------------------------------------------------------------
  // str.join, str.strip, str.lower
  // ---------------------------------------------------------------------------

  /** `sep.join(parts)` */
  function Join(parts: seq<string>, sep: string): string
    decreases |parts|
  {
    if parts == [] then ""
    else if |parts| == 1 then parts[0]
    else parts[0] + sep + Join(parts[1..], sep)
  }

  /** A three-part join always holds both separators, whatever the parts are. */
  lemma JoinThree(a: string, b: string, c: string, sep: string)
    ensures Join([a, b, c], sep) == a + sep + b + sep + c
  {
    assert [a, b, c][1..] == [b, c];
    assert [b, c][1..] == [c];
    assert Join([b, c], sep) == b + sep + c;
  }

  /** The joined text holds every part and one separator between each two neighbours. */
  lemma {:induction false} JoinLength(parts: seq<string>, sep: string)
    ensures |Join(parts, sep)| == SumLengths(parts) + (if parts == [] then 0 else (|parts| - 1) * |sep|)
    decreases |parts|
  {
    if |parts| > 1 {
      JoinLength(parts[1..], sep);
    }
  }

  function SumLengths(parts: seq<string>): nat
    decreases |parts|
  {
    if parts == [] then 0 else |parts[0]| + SumLengths(parts[1..])
  }

  /** The characters `str.strip()` removes (the ASCII ones; see the README). */
  predicate IsSpace(c: char) {
    c in SpaceChars
  }

  const SpaceChars: set<char> :=
    {' ', '\t', '\n', '\r', '\U{0B}', '\U{0C}', '\U{1C}', '\U{1D}', '\U{1E}', '\U{1F}'}

  /** The index of the first non-space at or after `from`, or `|s|`. */
  function SkipSpaces(s: string, from: nat): (i: nat)
    requires from <= |s|
    ensures from <= i <= |s|
    ensures forall k :: from <= k < i ==> IsSpace(s[k])
    ensures i < |s| ==> !IsSpace(s[i])
    decreases |s| - from
  {
    if from < |s| && IsSpace(s[from]) then SkipSpaces(s, from + 1) else from
  }

  /** The end of `s[lo..hi]` once its trailing spaces are dropped. */
  function TrimEnd(s: string, lo: nat, hi: nat): (j: nat)
    requires lo <= hi <= |s|
    ensures lo <= j <= hi
    ensures forall k :: j <= k < hi ==> IsSpace(s[k])
    ensures lo < j ==> !IsSpace(s[j - 1])
    decreases hi
  {
    if lo < hi && IsSpace(s[hi - 1]) then TrimEnd(s, lo, hi - 1) else hi
  }

  /** `s.strip()`: the leading spaces go, then the trailing ones. */
  function Strip(s: string): string {
    var i := SkipSpaces(s, 0);
    s[i..TrimEnd(s, i, |s|)]
  }

  /** `s.strip()` is the slice between the leading and the trailing whitespace, and starts and ends with a non-space. */
  lemma StripSpec(s: string) returns (i: nat, j: nat)
    ensures i <= j <= |s| && Strip(s) == s[i..j]
    ensures forall k :: 0 <= k < i ==> IsSpace(s[k])
    ensures forall k :: j <= k < |s| ==> IsSpace(s[k])
    ensures Strip(s) == [] || (!IsSpace(Strip(s)[0]) && !IsSpace(Strip(s)[|Strip(s)| - 1]))
  {
    i := SkipSpaces(s, 0);
    j := TrimEnd(s, i, |s|);
    if i < j {
      assert Strip(s)[0] == s[i];
      assert Strip(s)[|Strip(s)| - 1] == s[j - 1];
    }
  }

  /** Stripping an already stripped text changes nothing. */
  lemma StripIdempotent(s: string)
    ensures Strip(Strip(s)) == Strip(s)
  {
    var r := Strip(s);
    var i, j := StripSpec(s);
    assert SkipSpaces(r, 0) == 0;
    assert TrimEnd(r, 0, |r|) == |r|;
    assert r[0..|r|] == r;
  }

  /** `s.lower()` for ASCII letters. */
  function Lower(s: string): (r: string)
    ensures |r| == |s|
    ensures forall k :: 0 <= k < |s| ==> r[k] == LowerChar(s[k])
    decreases |s|
  {
    if s == [] then [] else [LowerChar(s[0])] + Lower(s[1..])
  }

  function LowerChar(c: char): char {
    if 'A' <= c <= 'Z' then (c as int - 'A' as int + 'a' as int) as char else c
  }
}
