/**
 * The placeholder loop both page generators run over their `replacements`
 * dict (admin/file-api.py `generate_page`, regenerate-index.py): each entry,
 * in insertion order, replaces its `{{NAME}}` in the text produced by the
 * entries before it. `str.replace` raises `TypeError` when the value is not a
 * string; that aborts the whole generation and is `None` here.
 */
module Template {
  import opened Wrappers
  import opened Json
  import opened Text

  /** A replacements dict in insertion order: the placeholder and its value. */
  type Replacements = seq<(string, Value)>

  /** The dict built from placeholder names and the values looked up for them. */
  function Dict(names: seq<string>, vals: seq<Value>): (t: Replacements)
    requires |names| == |vals|
    ensures |t| == |names| && Placeholders(t)
  {
    seq(|names|, k requires 0 <= k < |names| => (Placeholder(names[k]), vals[k]))
  }

  predicate Placeholders(t: Replacements) {
    forall k :: 0 <= k < |t| ==> t[k].0 != []
  }

  predicate AllStr(vals: seq<Value>) {
    forall k :: 0 <= k < |vals| ==> vals[k].Str?
  }

  /** What the loop leaves in the text, or `None` once a value is not a string. */
  function Substituted(s: string, t: Replacements): Option<string>
    requires Placeholders(t)
    decreases |t|
  {
    if t == [] then Some(s)
    else if !t[0].1.Str? then None
    else Substituted(ReplaceAll(s, t[0].0, t[0].1.s), t[1..])
  }

  /** `for placeholder, value in replacements.items(): page = page.replace(placeholder, value)` */
  method Substitute(s: string, t: Replacements) returns (r: Option<string>)
    requires Placeholders(t)
    ensures r == Substituted(s, t)
  {
    var page := s;
    var i := 0;
    while i < |t|
      invariant 0 <= i <= |t|
      invariant Substituted(page, t[i..]) == Substituted(s, t)
    {
      var (placeholder, value) := t[i];
      if !value.Str? {
        return None;
      }
      assert t[i..][1..] == t[i + 1..];
      page := ReplaceAll(page, placeholder, value.s);
      i := i + 1;
    }
    return Some(page);
  }

  /** The loop fails exactly when some value is not a string, and otherwise is the plain string loop. */
  lemma {:induction false} SubstitutedSpec(s: string, names: seq<string>, vals: seq<Value>)
    requires |names| == |vals|
    ensures Substituted(s, Dict(names, vals)).None? <==> !AllStr(vals)
    ensures AllStr(vals) ==> Substituted(s, Dict(names, vals)) == Some(ApplyAll(s, Strings(names, vals)))
    decreases |names|
  {
    var t := Dict(names, vals);
    if names != [] {
      assert Dict(names[1..], vals[1..]) == t[1..];
      assert Strings(names[1..], vals[1..]) == Strings(names, vals)[1..] by {
        if AllStr(vals) {
          assert AllStr(vals[1..]);
        }
      }
      SubstitutedSpec(ReplaceAll(s, t[0].0, if vals[0].Str? then vals[0].s else ""), names[1..], vals[1..]);
      if !AllStr(vals) && vals[0].Str? {
        var k :| 0 <= k < |vals| && !vals[k].Str?;
        assert !vals[1..][k - 1].Str?;
      }
    }
  }

  /** The string table of a dict whose values are all strings. */
  function Strings(names: seq<string>, vals: seq<Value>): (t: Table)
    requires |names| == |vals|
    ensures |t| == |names| && Patterns(t)
  {
    seq(|names|, k requires 0 <= k < |names| => (Placeholder(names[k]), if vals[k].Str? then vals[k].s else ""))
  }

  /** Entries whose placeholder does not occur leave the text to the entries after them. */
  lemma {:induction false} SubstitutedSkip(s: string, t: Replacements, lo: nat, hi: nat)
    requires Placeholders(t) && lo <= hi <= |t|
    requires forall k :: lo <= k < hi ==> t[k].1.Str? && !Contains(s, t[k].0)
    ensures Substituted(s, t[lo..]) == Substituted(s, t[hi..])
    decreases hi - lo
  {
    if lo < hi {
      ReplaceAbsent(s, t[lo].0, t[lo].1.s);
      assert t[lo..][1..] == t[lo + 1..];
      SubstitutedSkip(s, t, lo + 1, hi);
    }
  }

  /**
   * The sequential loop expands placeholders inside values: a text that is
   * exactly the `i`-th placeholder, whose value is the `j`-th placeholder with
   * `j > i`, ends up as the `j`-th value.
   */
  lemma LaterPlaceholderExpanded(names: seq<string>, vals: seq<Value>, i: nat, j: nat)
    requires |names| == |vals| && i < j < |names| && AllStr(vals)
    requires forall k :: 0 <= k <= j ==> NoBraces(names[k])
    requires forall k :: 0 <= k < j && k != i ==> names[k] != names[i] && names[k] != names[j]
    requires vals[i] == Str(Placeholder(names[j]))
    requires NoOpenBrace(vals[j].s)
    ensures Substituted(Placeholder(names[i]), Dict(names, vals)) == Some(vals[j].s)
  {
    var t := Dict(names, vals);
    assert t[i].0 == Placeholder(names[i]) && t[i].1.s == t[j].0;
    UpToValue(names, vals, i);
    OtherPlaceholdersAbsent(names, vals, j, i + 1, j);
    SubstitutedSkip(t[j].0, t, i + 1, j);
    ExpandAt(t, j);
    BraceFreeValueKept(vals[j].s, t, j + 1);
  }

  /** The entries before the `i`-th leave its placeholder alone, and it then becomes its value. */
  lemma UpToValue(names: seq<string>, vals: seq<Value>, i: nat)
    requires |names| == |vals| && i < |names| && AllStr(vals)
    requires forall k :: 0 <= k <= i ==> NoBraces(names[k])
    requires forall k :: 0 <= k < i ==> names[k] != names[i]
    ensures Substituted(Dict(names, vals)[i].0, Dict(names, vals)) ==
      Substituted(vals[i].s, Dict(names, vals)[i + 1..])
  {
    var t := Dict(names, vals);
    OtherPlaceholdersAbsent(names, vals, i, 0, i);
    SubstitutedSkip(t[i].0, t, 0, i);
    assert t[0..] == t;
    ExpandAt(t, i);
  }

  /** A value without `{` holds no placeholder, so the entries after it leave it as it is. */
  lemma BraceFreeValueKept(w: string, t: Replacements, lo: nat)
    requires Placeholders(t) && lo <= |t| && NoOpenBrace(w)
    requires forall k :: lo <= k < |t| ==> t[k].1.Str? && StartsWith(t[k].0, "{")
    ensures Substituted(w, t[lo..]) == Some(w)
  {
    forall k | lo <= k < |t| ensures !Contains(w, t[k].0) {
      NoPlaceholderWithoutBrace(w, t[k].0);
    }
    SubstitutedSkip(w, t, lo, |t|);
  }

  /** A text that is exactly the `k`-th placeholder becomes its value, and the entries after it go on. */
  lemma ExpandAt(t: Replacements, k: nat)
    requires Placeholders(t) && k < |t| && t[k].1.Str?
    ensures Substituted(t[k].0, t[k..]) == Substituted(t[k].1.s, t[k + 1..])
  {
    assert t[k..][1..] == t[k + 1..];
    ReplaceWhole(t[k].0, t[k].1.s);
  }

  /** Distinct brace-free names: no placeholder occurs inside another. */
  lemma OtherPlaceholdersAbsent(names: seq<string>, vals: seq<Value>, i: nat, lo: nat, hi: nat)
    requires |names| == |vals| && lo <= hi <= |names| && i < |names|
    requires NoBraces(names[i]) && forall k :: lo <= k < hi ==> NoBraces(names[k]) && names[k] != names[i]
    ensures forall k :: lo <= k < hi ==> !Contains(Placeholder(names[i]), Dict(names, vals)[k].0)
  {
    forall k | lo <= k < hi ensures !Contains(Placeholder(names[i]), Dict(names, vals)[k].0) {
      if Contains(Placeholder(names[i]), Placeholder(names[k])) {
        PlaceholderInPlaceholder(names[k], names[i]);
      }
    }
  }
}
