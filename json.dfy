/**
 * JSON documents as the program sees them after `json.load`, and the text that
 * `json.dumps` / `json.loads` exchange with the database.
 *
 * The encoding is abstract rather than byte-exact: integers only, strings escape
 * only the quote and the backslash, and items are separated by ", " and keys by
 * ": " as Python's default `json.dumps` does.  What matters to the program, and
 * what is proved here, is that decoding an encoded value gives that value back.
 */
module Json {
  import opened Wrappers

  datatype Value =
    | Null
    | Bool(b: bool)
    | Int(i: int)
    | Str(s: string)
    | Arr(items: seq<Value>)
    | Obj(members: seq<Member>)

  /** One `"key": value` entry of a JSON object, in document order. */
  datatype Member = Member(key: string, val: Value)

  /** What reading a JSON file gives: no file, a read or parse error, or the document. */
  datatype JsonFile = Missing | Unreadable(error: string) | Parsed(doc: Value)

  // ---------------------------------------------------------------------------
  // Reading a document the way the Python code does (`d.get(k, default)`, `if x:`)
  // ---------------------------------------------------------------------------

  /** `dict.get` over the members: when a key repeats, the last entry wins, as with `json.loads`. */
  function Lookup(ms: seq<Member>, key: string, default: Value): Value {
    if ms == [] then default
    else if ms[|ms| - 1].key == key then ms[|ms| - 1].val
    else Lookup(ms[..|ms| - 1], key, default)
  }

  /** A key that no entry carries yields the default. */
  lemma {:induction false} LookupAbsent(ms: seq<Member>, key: string, default: Value)
    requires forall i :: 0 <= i < |ms| ==> ms[i].key != key
    ensures Lookup(ms, key, default) == default
  {
    if ms != [] {
      LookupAbsent(ms[..|ms| - 1], key, default);
    }
  }

  /** Otherwise the value of the last entry carrying the key is found. */
  lemma {:induction false} LookupLast(ms: seq<Member>, key: string, default: Value, i: int)
    requires 0 <= i < |ms| && ms[i].key == key
    requires forall j :: i < j < |ms| ==> ms[j].key != key
    ensures Lookup(ms, key, default) == ms[i].val
  {
    if i < |ms| - 1 {
      LookupLast(ms[..|ms| - 1], key, default, i);
    }
  }

  /**
   * `d.get(key, default)`: on a dict, the entry's value or `default`; on
   * anything else Python raises `AttributeError`, which is `None` here.
   */
  function DictGet(d: Value, key: string, default: Value): Option<Value> {
    if d.Obj? then Some(Lookup(d.members, key, default)) else None
  }

  /** `d.get(key, {}).get(k2, default)`, the two-level lookup the generators use. */
  function DictGet2(d: Value, key: string, k2: string, default: Value): Option<Value> {
    match DictGet(d, key, Obj([]))
    case None => None
    case Some(inner) => DictGet(inner, k2, default)
  }

  /** A missing key gives the default; a present one its last value; a non-dict fails. */
  lemma DictGetSpec(d: Value, key: string, default: Value)
    ensures DictGet(d, key, default).None? <==> !d.Obj?
    ensures d.Obj? && !HasKey(d, key) ==> DictGet(d, key, default) == Some(default)
    ensures d.Obj? && HasKey(d, key) ==>
      exists i :: 0 <= i < |d.members| && d.members[i].key == key &&
        DictGet(d, key, default) == Some(d.members[i].val)
  {
    if d.Obj? {
      var ms := d.members;
      if HasKey(d, key) {
        var i := LastWith(ms, key);
        LookupLast(ms, key, default, i);
      } else {
        LookupAbsent(ms, key, default);
      }
    }
  }

  /** The index of the last entry carrying `key`. */
  lemma {:induction false} LastWith(ms: seq<Member>, key: string) returns (i: int)
    requires exists j :: 0 <= j < |ms| && ms[j].key == key
    ensures 0 <= i < |ms| && ms[i].key == key
    ensures forall j :: i < j < |ms| ==> ms[j].key != key
  {
    if ms[|ms| - 1].key == key {
      i := |ms| - 1;
    } else {
      var w :| 0 <= w < |ms| && ms[w].key == key;
      assert ms[..|ms| - 1][w] == ms[w];
      i := LastWith(ms[..|ms| - 1], key);
    }
  }

  predicate HasKey(v: Value, key: string) {
    v.Obj? && exists i :: 0 <= i < |v.members| && v.members[i].key == key
  }

  /** Python truthiness of a JSON value. */
  predicate Truthy(v: Value) {
    match v
    case Null => false
    case Bool(b) => b
    case Int(i) => i != 0
    case Str(s) => s != ""
    case Arr(items) => items != []
    case Obj(ms) => ms != []
  }

  /** The flag `d.get(key)` reads from a dict: a missing key is `None`, which is false. */
  predicate Flag(flags: seq<Member>, key: string) {
    Truthy(Lookup(flags, key, Null))
  }

  /**
   * The values of the entries whose flag is set, in entry order: what a chain
   * of `if d.get(key): items.append(value)` builds.
   */
  function Chosen<T>(entries: seq<(string, T)>, flags: seq<Member>): seq<T>
    decreases |entries|
  {
    if entries == [] then []
    else
      var last := entries[|entries| - 1];
      Chosen(entries[..|entries| - 1], flags) + (if Flag(flags, last.0) then [last.1] else [])
  }

  /** One more `if` of the chain appends that entry's value when its flag is set. */
  lemma ChosenStep<T>(entries: seq<(string, T)>, flags: seq<Member>, k: nat)
    requires k < |entries|
    ensures Chosen(entries[..k + 1], flags) ==
      Chosen(entries[..k], flags) + (if Flag(flags, entries[k].0) then [entries[k].1] else [])
  {
    assert entries[..k + 1][..k] == entries[..k];
  }

  /**
   * One link of the generators' chain of `if flag: list.append(entry)`
   * statements: the list built so far grows by the next entry exactly when
   * its flag is set.
   */
  method AppendIfSet<T>(built: seq<T>, entries: seq<(string, T)>, flags: seq<Member>, k: nat) returns (next: seq<T>)
    requires k < |entries| && built == Chosen(entries[..k], flags)
    ensures next == Chosen(entries[..k + 1], flags)
  {
    ChosenStep(entries, flags, k);
    if Flag(flags, entries[k].0) {
      next := built + [entries[k].1];
    } else {
      next := built;
    }
  }


  /** With every flag set, every entry is chosen, in table order. */
  lemma {:induction false} ChosenAll<T>(entries: seq<(string, T)>, flags: seq<Member>)
    requires forall k :: 0 <= k < |entries| ==> Flag(flags, entries[k].0)
    ensures Chosen(entries, flags) == seq(|entries|, k requires 0 <= k < |entries| => entries[k].1)
    decreases |entries|
  {
    if entries != [] {
      var n := |entries| - 1;
      ChosenAll(entries[..n], flags);
    }
  }

  /** Every entry whose flag is set is chosen. */
  lemma {:induction false} ChosenIncludes<T>(entries: seq<(string, T)>, flags: seq<Member>, k: nat)
    requires k < |entries| && Flag(flags, entries[k].0)
    ensures entries[k].1 in Chosen(entries, flags)
    decreases |entries|
  {
    var n := |entries| - 1;
    if k < n {
      assert entries[..n][k] == entries[k];
      ChosenIncludes(entries[..n], flags, k);
    }
  }

  /** Only entries whose flag is set are chosen, and no more of them than there are entries. */
  lemma {:induction false} ChosenOnly<T>(entries: seq<(string, T)>, flags: seq<Member>)
    ensures |Chosen(entries, flags)| <= |entries|
    ensures forall x :: x in Chosen(entries, flags) ==>
      exists k :: 0 <= k < |entries| && entries[k].1 == x && Flag(flags, entries[k].0)
    decreases |entries|
  {
    if entries != [] {
      var n := |entries| - 1;
      var init := entries[..n];
      ChosenOnly(init, flags);
      forall x | x in Chosen(init, flags)
        ensures exists k :: 0 <= k < |entries| && entries[k].1 == x && Flag(flags, entries[k].0)
      {
        var k :| 0 <= k < |init| && init[k].1 == x && Flag(flags, init[k].0);
        assert entries[k] == init[k];
      }
    }
  }

  /** The chain appends nothing exactly when no flag is set. */
  lemma ChosenEmpty<T>(entries: seq<(string, T)>, flags: seq<Member>)
    ensures Chosen(entries, flags) == [] <==> forall k :: 0 <= k < |entries| ==> !Flag(flags, entries[k].0)
  {
    ChosenOnly(entries, flags);
    if Chosen(entries, flags) == [] {
      forall k | 0 <= k < |entries| ensures !Flag(flags, entries[k].0) {
        if Flag(flags, entries[k].0) {
          ChosenIncludes(entries, flags, k);
        }
      }
    } else {
      var x := Chosen(entries, flags)[0];
      assert x in Chosen(entries, flags);
      var k :| 0 <= k < |entries| && entries[k].1 == x && Flag(flags, entries[k].0);
    }
  }

  /**
   * `str(v)`, as an f-string renders a value: `None`, `True`/`False`, the
   * decimal digits of an integer, a string as it is. Lists and dicts are
   * rendered as their JSON text.
   */
  function PyStr(v: Value): string {
    match v
    case Null => "None"
    case Bool(b) => if b then "True" else "False"
    case Int(i) => IntText(i)
    case Str(s) => s
    case _ => Encode(v)
  }

  /** `d[key] = val` on a dict: an existing key keeps its place, a new key goes last. */
  function Put(ms: seq<Member>, key: string, val: Value): seq<Member> {
    if exists i :: 0 <= i < |ms| && ms[i].key == key then
      seq(|ms|, i requires 0 <= i < |ms| => if ms[i].key == key then Member(key, val) else ms[i])
    else
      ms + [Member(key, val)]
  }

  /** After `d[key] = val`, `d.get(key)` is `val` and every other key reads as before. */
  lemma PutSpec(ms: seq<Member>, key: string, val: Value)
    ensures forall d :: Lookup(Put(ms, key, val), key, d) == val
    ensures forall k, d :: k != key ==> Lookup(Put(ms, key, val), k, d) == Lookup(ms, k, d)
  {
    var r := Put(ms, key, val);
    if exists i :: 0 <= i < |ms| && ms[i].key == key {
      var w :| 0 <= w < |ms| && ms[w].key == key;
      forall d ensures Lookup(r, key, d) == val {
        LookupUniform(r, key, d, val, w);
      }
      forall k, d | k != key ensures Lookup(r, k, d) == Lookup(ms, k, d) {
        LookupPointwise(r, ms, k, d);
      }
    } else {
      assert r[..|ms|] == ms;
      forall d ensures Lookup(r, key, d) == val {
        LookupLast(r, key, d, |ms|);
      }
    }
  }

  /** When every entry carrying the key holds the same value, that value is found. */
  lemma {:induction false} LookupUniform(ms: seq<Member>, key: string, default: Value, v: Value, w: int)
    requires 0 <= w < |ms| && ms[w].key == key
    requires forall i :: 0 <= i < |ms| && ms[i].key == key ==> ms[i].val == v
    ensures Lookup(ms, key, default) == v
  {
    if ms[|ms| - 1].key != key {
      LookupUniform(ms[..|ms| - 1], key, default, v, w);
    }
  }

  /** Two member lists that agree on every entry for `key` agree on its lookup. */
  lemma {:induction false} LookupPointwise(a: seq<Member>, b: seq<Member>, key: string, default: Value)
    requires |a| == |b|
    requires forall i :: 0 <= i < |a| ==> (a[i].key == key) == (b[i].key == key)
    requires forall i :: 0 <= i < |a| && a[i].key == key ==> a[i].val == b[i].val
    ensures Lookup(a, key, default) == Lookup(b, key, default)
  {
    if a != [] && a[|a| - 1].key != key {
      LookupPointwise(a[..|a| - 1], b[..|b| - 1], key, default);
    }
  }

  // ---------------------------------------------------------------------------
  // Encoding (`json.dumps`)
  // ---------------------------------------------------------------------------

  predicate IsDigit(c: char) { '0' <= c <= '9' }

  function DigitChar(d: nat): (c: char)
    requires d < 10
    ensures IsDigit(c)
  {
    "0123456789"[d]
  }

  function DigitValue(c: char): nat
    requires IsDigit(c)
  {
    (c as int - '0' as int) as nat
  }

  /** Decimal digits of `n`, most significant first, without leading zeros. */
  function NatText(n: nat): (r: string)
    ensures |r| > 0 && forall i :: 0 <= i < |r| ==> IsDigit(r[i])
    ensures (r[0] == '0') == (n == 0)
  {
    if n < 10 then [DigitChar(n)] else NatText(n / 10) + [DigitChar(n % 10)]
  }

  function IntText(i: int): string {
    if i < 0 then "-" + NatText(-i) else NatText(i)
  }

  /** String body with the quote and the backslash escaped. */
  function Escaped(s: string): string {
    if s == [] then []
    else (if s[0] == '"' || s[0] == '\\' then ['\\', s[0]] else [s[0]]) + Escaped(s[1..])
  }

  function Encode(v: Value): string
    decreases v
  {
    match v
    case Null => "null"
    case Bool(b) => if b then "true" else "false"
    case Int(i) => IntText(i)
    case Str(s) => "\"" + Escaped(s) + "\""
    case Arr(items) => "[" + EncodeItems(items) + "]"
    case Obj(ms) => "{" + EncodeMembers(ms) + "}"
  }

  function EncodeItems(items: seq<Value>): string
    decreases items
  {
    if items == [] then ""
    else if |items| == 1 then Encode(items[0])
    else Encode(items[0]) + ", " + EncodeItems(items[1..])
  }

  function EncodeMember(m: Member): string
    decreases m
  {
    "\"" + Escaped(m.key) + "\": " + Encode(m.val)
  }

  function EncodeMembers(ms: seq<Member>): string
    decreases ms
  {
    if ms == [] then ""
    else if |ms| == 1 then EncodeMember(ms[0])
    else EncodeMember(ms[0]) + ", " + EncodeMembers(ms[1..])
  }

  // ---------------------------------------------------------------------------
  // Decoding (`json.loads`): a recursive-descent parser over a prefix of the text
  // ---------------------------------------------------------------------------

  predicate IsWs(c: char) { c == ' ' || c == '\n' || c == '\t' || c == '\r' }

  function SkipWs(s: string): (r: string)
    ensures |r| <= |s|
    ensures r == [] || !IsWs(r[0])
  {
    if s != [] && IsWs(s[0]) then SkipWs(s[1..]) else s
  }

  /** Length of the run of digits that starts `s`. */
  function DigitRun(s: string): (k: nat)
    ensures k <= |s| && forall i :: 0 <= i < k ==> IsDigit(s[i])
    ensures k < |s| ==> !IsDigit(s[k])
  {
    if s == [] || !IsDigit(s[0]) then 0 else 1 + DigitRun(s[1..])
  }

  function DigitsValue(s: string): nat
    requires forall i :: 0 <= i < |s| ==> IsDigit(s[i])
  {
    if s == [] then 0 else DigitsValue(s[..|s| - 1]) * 10 + DigitValue(s[|s| - 1])
  }

  /** A JSON natural number: `0`, or a non-zero digit followed by digits. */
  function ParseNat(s: string): (r: Option<(nat, string)>)
    ensures r.Some? ==> |r.value.1| < |s|
  {
    if s == [] || !IsDigit(s[0]) then None
    else if s[0] == '0' then Some((0, s[1..]))
    else
      var k := DigitRun(s);
      Some((DigitsValue(s[..k]), s[k..]))
  }

  /** The body of a string literal up to and including its closing quote. */
  function ParseStr(s: string): (r: Option<(string, string)>)
    ensures r.Some? ==> |r.value.1| < |s|
  {
    if s == [] then None
    else if s[0] == '"' then Some(([], s[1..]))
    else if s[0] == '\\' then
      if |s| >= 2 && (s[1] == '"' || s[1] == '\\') then
        match ParseStr(s[2..])
        case None => None
        case Some((body, rest)) => Some(([s[1]] + body, rest))
      else None
    else
      match ParseStr(s[1..])
      case None => None
      case Some((body, rest)) => Some(([s[0]] + body, rest))
  }

  /** Parses one value after optional whitespace; returns it with the text that follows. */
  function ParseValue(s: string): (r: Option<(Value, string)>)
    ensures r.Some? ==> |r.value.1| < |s|
    decreases |s|, 2
  {
    ParseToken(SkipWs(s))
  }

  /** Chooses the parser by the first character of the value. */
  function ParseToken(t: string): (r: Option<(Value, string)>)
    ensures r.Some? ==> |r.value.1| < |t|
    decreases |t|, 1
  {
    if t == [] then None
    else if t[0] == '[' then ParseArray(t[1..])
    else if t[0] == '{' then ParseObject(t[1..])
    else ParseScalar(t)
  }

  function ParseScalar(t: string): (r: Option<(Value, string)>)
    requires t != []
    ensures r.Some? ==> |r.value.1| < |t|
  {
    if t[0] == 'n' then
      if |t| >= 4 && t[..4] == "null" then Some((Null, t[4..])) else None
    else if t[0] == 't' then
      if |t| >= 4 && t[..4] == "true" then Some((Bool(true), t[4..])) else None
    else if t[0] == 'f' then
      if |t| >= 5 && t[..5] == "false" then Some((Bool(false), t[5..])) else None
    else if t[0] == '"' then
      match ParseStr(t[1..])
      case None => None
      case Some((body, rest)) => Some((Str(body), rest))
    else if t[0] == '-' then
      match ParseNat(t[1..])
      case None => None
      case Some((n, rest)) => Some((Int(0 - n), rest))
    else
      match ParseNat(t)
      case None => None
      case Some((n, rest)) => Some((Int(n), rest))
  }

  /** The rest of an array after its opening bracket. */
  function ParseArray(s: string): (r: Option<(Value, string)>)
    ensures r.Some? ==> |r.value.1| < |s|
    decreases |s|, 4
  {
    var u := SkipWs(s);
    if u != [] && u[0] == ']' then Some((Arr([]), u[1..]))
    else
      match ParseItems(s)
      case None => None
      case Some((items, rest)) => Some((Arr(items), rest))
  }

  /** The rest of an object after its opening brace. */
  function ParseObject(s: string): (r: Option<(Value, string)>)
    ensures r.Some? ==> |r.value.1| < |s|
    decreases |s|, 5
  {
    var u := SkipWs(s);
    if u != [] && u[0] == '}' then Some((Obj([]), u[1..]))
    else
      match ParseMembers(s)
      case None => None
      case Some((ms, rest)) => Some((Obj(ms), rest))
  }

  /** One or more comma-separated values and the closing bracket. */
  function ParseItems(s: string): (r: Option<(seq<Value>, string)>)
    ensures r.Some? ==> |r.value.1| < |s|
    decreases |s|, 3
  {
    match ParseValue(s)
    case None => None
    case Some((v, s1)) =>
      var s2 := SkipWs(s1);
      if s2 == [] then None
      else if s2[0] == ']' then Some(([v], s2[1..]))
      else if s2[0] == ',' then
        match ParseItems(s2[1..])
        case None => None
        case Some((vs, rest)) => Some(([v] + vs, rest))
      else None
  }

  /** The `"key":` part of an entry; returns the key and the text after the colon. */
  function ParseKeyColon(s: string): (r: Option<(string, string)>)
    ensures r.Some? ==> |r.value.1| < |s|
  {
    var t := SkipWs(s);
    if t == [] || t[0] != '"' then None
    else
      match ParseStr(t[1..])
      case None => None
      case Some((key, s1)) =>
        var s2 := SkipWs(s1);
        if s2 == [] || s2[0] != ':' then None
        else Some((key, s2[1..]))
  }

  /** One `"key": value` entry; returns it with the text that follows. */
  function ParseMember(s: string): (r: Option<(Member, string)>)
    ensures r.Some? ==> |r.value.1| < |s|
    decreases |s|, 3
  {
    match ParseKeyColon(s)
    case None => None
    case Some((key, s2)) =>
      match ParseValue(s2)
      case None => None
      case Some((v, s3)) => Some((Member(key, v), s3))
  }

  /** One or more comma-separated entries and the closing brace. */
  function ParseMembers(s: string): (r: Option<(seq<Member>, string)>)
    ensures r.Some? ==> |r.value.1| < |s|
    decreases |s|, 4
  {
    match ParseMember(s)
    case None => None
    case Some((m, s1)) =>
      var s2 := SkipWs(s1);
      if s2 == [] then None
      else if s2[0] == '}' then Some(([m], s2[1..]))
      else if s2[0] == ',' then
        match ParseMembers(s2[1..])
        case None => None
        case Some((ms, rest)) => Some(([m] + ms, rest))
      else None
  }

  /** `json.loads`: a whole text holding exactly one value, surrounded by optional whitespace. */
  function Decode(s: string): Option<Value> {
    match ParseValue(s)
    case None => None
    case Some((v, rest)) => if SkipWs(rest) == [] then Some(v) else None
  }

  // ---------------------------------------------------------------------------
  // Round trip: what `json.dumps` writes, `json.loads` reads back
  // ---------------------------------------------------------------------------

  lemma {:induction false} DigitRunOf(d: string, rest: string)
    requires forall i :: 0 <= i < |d| ==> IsDigit(d[i])
    requires rest == [] || !IsDigit(rest[0])
    ensures DigitRun(d + rest) == |d|
  {
    if d != [] {
      assert (d + rest)[1..] == d[1..] + rest;
      DigitRunOf(d[1..], rest);
    }
  }

  lemma {:induction false} NatTextValue(n: nat)
    ensures DigitsValue(NatText(n)) == n
  {
    var t := NatText(n);
    if n < 10 {
      assert t[..0] == [];
    } else {
      assert t[..|t| - 1] == NatText(n / 10);
      NatTextValue(n / 10);
    }
  }

  lemma {:induction false} ParseNatText(n: nat, rest: string)
    requires rest == [] || !IsDigit(rest[0])
    ensures ParseNat(NatText(n) + rest) == Some((n, rest))
  {
    var d := NatText(n);
    var s := d + rest;
    assert s[0] == d[0];
    if n != 0 {
      DigitRunOf(d, rest);
      assert s[..|d|] == d && s[|d|..] == rest;
      NatTextValue(n);
    } else {
      assert d == "0";
    }
  }

  lemma {:induction false} ParseEscaped(x: string, rest: string)
    ensures ParseStr(Escaped(x) + "\"" + rest) == Some((x, rest))
  {
    if x == [] {
      assert Escaped(x) + "\"" + rest == "\"" + rest;
    } else {
      var c, t := x[0], Escaped(x[1..]) + "\"" + rest;
      ParseEscaped(x[1..], rest);
      assert [c] + x[1..] == x;
      if c == '"' || c == '\\' {
        assert Escaped(x) + "\"" + rest == ['\\', c] + t;
        ParseStrEscape(c, t, x[1..], rest);
      } else {
        assert Escaped(x) + "\"" + rest == [c] + t;
        ParseStrPlain(c, t, x[1..], rest);
      }
    }
  }

  /** A character other than the quote and the backslash stands for itself. */
  lemma {:induction false} ParseStrPlain(c: char, t: string, x: string, rest: string)
    requires c != '"' && c != '\\'
    requires ParseStr(t) == Some((x, rest))
    ensures ParseStr([c] + t) == Some(([c] + x, rest))
  {
    assert ([c] + t)[1..] == t;
  }

  /** A backslash followed by the quote or the backslash stands for that character. */
  lemma {:induction false} ParseStrEscape(c: char, t: string, x: string, rest: string)
    requires c == '"' || c == '\\'
    requires ParseStr(t) == Some((x, rest))
    ensures ParseStr(['\\', c] + t) == Some(([c] + x, rest))
  {
    assert (['\\', c] + t)[2..] == t;
  }

  /** Every encoded value starts with a character that selects its parser branch. */
  lemma {:induction false} EncodeStart(v: Value)
    ensures |Encode(v)| > 0
    ensures var c := Encode(v)[0];
      !IsWs(c) && c != ']' && c != '}' && c != ',' &&
      (v.Null? ==> c == 'n') && (v.Bool? ==> c == 't' || c == 'f') &&
      (v.Int? ==> c == '-' || IsDigit(c)) && (v.Str? ==> c == '"') &&
      (v.Arr? ==> c == '[') && (v.Obj? ==> c == '{')
  {
  }

  lemma {:induction false} SkipWsNone(s: string)
    requires s == [] || !IsWs(s[0])
    ensures SkipWs(s) == s
  {
  }

  lemma {:induction false} SkipWsSpace(s: string)
    ensures SkipWs(" " + s) == SkipWs(s)
  {
    assert (" " + s)[1..] == s;
  }

  /** Parsing an encoded value leaves exactly the text that followed it. */
  lemma {:induction false} ParseEncoded(v: Value, rest: string)
    requires rest == [] || !IsDigit(rest[0])
    ensures ParseValue(Encode(v) + rest) == Some((v, rest))
    decreases v, 1
  {
    match v
    case Arr(items) =>
      var t := EncodeItems(items) + "]" + rest;
      assert Encode(v) + rest == "[" + t;
      ValueOfBracket('[', t);
      ParseEncodedArray(items, rest);
    case Obj(ms) =>
      var t := EncodeMembers(ms) + "}" + rest;
      assert Encode(v) + rest == "{" + t;
      ValueOfBracket('{', t);
      ParseEncodedObject(ms, rest);
    case _ =>
      ValueOfScalar(v, rest);
      ParseEncodedScalar(v, rest);
  }

  /** An opening bracket or brace selects the array or the object parser. */
  lemma {:induction false} ValueOfBracket(c: char, t: string)
    requires c == '[' || c == '{'
    ensures ParseValue([c] + t) == if c == '[' then ParseArray(t) else ParseObject(t)
  {
    assert ([c] + t)[0] == c && ([c] + t)[1..] == t;
  }

  /** Any other encoded value goes to the scalar parser. */
  lemma {:induction false} ValueOfScalar(v: Value, rest: string)
    requires !v.Arr? && !v.Obj?
    ensures ParseValue(Encode(v) + rest) == ParseScalar(Encode(v) + rest)
  {
    var s := Encode(v) + rest;
    EncodeStart(v);
    assert s[0] == Encode(v)[0];
    SkipWsNone(s);
  }

  lemma {:induction false} ParseEncodedScalar(v: Value, rest: string)
    requires !v.Arr? && !v.Obj?
    requires rest == [] || !IsDigit(rest[0])
    ensures ParseScalar(Encode(v) + rest) == Some((v, rest))
  {
    match v
    case Null => ParseWord("null", Null, rest);
    case Bool(b) =>
      if b {
        ParseWord("true", Bool(true), rest);
      } else {
        ParseWord("false", Bool(false), rest);
      }
    case Int(i) => ParseIntText(i, rest);
    case Str(x) => ParseQuoted(x, rest);
  }

  lemma {:induction false} ParseIntText(i: int, rest: string)
    requires rest == [] || !IsDigit(rest[0])
    ensures ParseScalar(IntText(i) + rest) == Some((Int(i), rest))
  {
    if i < 0 {
      var n: nat := -i;
      assert IntText(i) == "-" + NatText(n);
      ParseNegativeText(n, rest);
      assert 0 - n == i;
    } else {
      ParseNaturalText(i, rest);
    }
  }

  /** The literals `null`, `true` and `false`. */
  lemma {:induction false} ParseWord(w: string, v: Value, rest: string)
    requires (w, v) in {("null", Null), ("true", Bool(true)), ("false", Bool(false))}
    ensures ParseScalar(w + rest) == Some((v, rest))
  {
    var s := w + rest;
    assert s[..|w|] == w && s[|w|..] == rest;
  }

  lemma {:induction false} ParseNaturalText(n: nat, rest: string)
    requires rest == [] || !IsDigit(rest[0])
    ensures ParseScalar(NatText(n) + rest) == Some((Int(n), rest))
  {
    var s := NatText(n) + rest;
    assert s[0] == NatText(n)[0];
    ParseNatText(n, rest);
  }

  lemma {:induction false} ParseNegativeText(n: nat, rest: string)
    requires n > 0
    requires rest == [] || !IsDigit(rest[0])
    ensures ParseScalar("-" + NatText(n) + rest) == Some((Int(0 - n), rest))
  {
    var s := "-" + NatText(n) + rest;
    assert s[1..] == NatText(n) + rest;
    ParseNatText(n, rest);
  }

  lemma {:induction false} ParseQuoted(x: string, rest: string)
    ensures ParseScalar("\"" + Escaped(x) + "\"" + rest) == Some((Str(x), rest))
  {
    var s := "\"" + Escaped(x) + "\"" + rest;
    assert s[1..] == Escaped(x) + "\"" + rest;
    ParseEscaped(x, rest);
  }

  lemma {:induction false} ParseEncodedArray(items: seq<Value>, rest: string)
    ensures ParseArray(EncodeItems(items) + "]" + rest) == Some((Arr(items), rest))
    decreases items, 1
  {
    var s := EncodeItems(items) + "]" + rest;
    if items == [] {
      assert s == "]" + rest;
      assert s[1..] == rest;
    } else {
      EncodeStart(items[0]);
      assert s[0] == Encode(items[0])[0];
      SkipWsNone(s);
      ParseEncodedItems(items, rest);
    }
  }

  lemma {:induction false} ParseEncodedObject(ms: seq<Member>, rest: string)
    ensures ParseObject(EncodeMembers(ms) + "}" + rest) == Some((Obj(ms), rest))
    decreases ms, 1
  {
    var s := EncodeMembers(ms) + "}" + rest;
    if ms == [] {
      assert s == "}" + rest;
      assert s[1..] == rest;
    } else {
      MembersStart(ms, rest);
      SkipWsNone(s);
      ParseEncodedMembers(ms, rest);
    }
  }

  lemma {:induction false} MembersStart(ms: seq<Member>, rest: string)
    requires ms != []
    ensures var s := EncodeMembers(ms) + "}" + rest; s != [] && s[0] == '"'
  {
    var m, tl := ms[0], ms[1..];
    assert ms == [m] + tl;
    if tl == [] {
      assert ms == [m];
      EncodeMembersOne(m, rest);
      EncodeMemberText(m, "}" + rest);
    } else {
      EncodeMembersCons(m, tl, rest);
      EncodeMemberText(m, ", " + (EncodeMembers(tl) + "}" + rest));
    }
  }

  lemma {:induction false} ParseItemsSpace(t: string)
    ensures ParseItems(" " + t) == ParseItems(t)
  {
    SkipWsSpace(t);
    assert ParseValue(" " + t) == ParseValue(t);
  }

  lemma {:induction false} ParseMembersSpace(t: string)
    ensures ParseMembers(" " + t) == ParseMembers(t)
  {
    SkipWsSpace(t);
    assert ParseMember(" " + t) == ParseMember(t);
  }

  /** A punctuation character followed by the rest of the text, with no whitespace to skip. */
  lemma {:induction false} Punctuated(c: char, t: string)
    requires !IsWs(c)
    ensures SkipWs([c] + t) == [c] + t && ([c] + t)[0] == c && ([c] + t)[1..] == t
  {
  }

  lemma {:induction false} CommaSpace(t: string)
    ensures SkipWs(", " + t) == ", " + t && (", " + t)[0] == ',' && (", " + t)[1..] == " " + t
  {
  }

  /** After a value, a closing bracket ends the list. */
  lemma {:induction false} ItemsLast(s: string, x: Value, t: string)
    requires ParseValue(s) == Some((x, "]" + t))
    ensures ParseItems(s) == Some(([x], t))
  {
    Punctuated(']', t);
    ItemsClose(s, x, "]" + t, t);
  }

  lemma {:induction false} ItemsClose(s: string, x: Value, s1: string, t: string)
    requires ParseValue(s) == Some((x, s1))
    requires SkipWs(s1) == s1 && s1 != [] && s1[0] == ']' && s1[1..] == t
    ensures ParseItems(s) == Some(([x], t))
  {
  }

  /** After a value, a comma and a space continue the list. */
  lemma {:induction false} ItemsNext(s: string, x: Value, t: string, xs: seq<Value>, rest: string)
    requires ParseValue(s) == Some((x, ", " + t))
    requires ParseItems(t) == Some((xs, rest))
    ensures ParseItems(s) == Some(([x] + xs, rest))
  {
    CommaSpace(t);
    ParseItemsSpace(t);
    ItemsComma(s, x, ", " + t, t, xs, rest);
  }

  lemma {:induction false} ItemsComma(s: string, x: Value, s1: string, t: string, xs: seq<Value>, rest: string)
    requires ParseValue(s) == Some((x, s1))
    requires SkipWs(s1) == s1 && s1 != [] && s1[0] == ',' && s1[1..] == " " + t
    requires ParseItems(" " + t) == Some((xs, rest))
    ensures ParseItems(s) == Some(([x] + xs, rest))
  {
  }

  lemma {:induction false} EncodeItemsOne(x: Value, rest: string)
    ensures EncodeItems([x]) + "]" + rest == Encode(x) + ("]" + rest)
  {
  }

  lemma {:induction false} EncodeItemsCons(x: Value, xs: seq<Value>, rest: string)
    requires xs != []
    ensures EncodeItems([x] + xs) + "]" + rest == Encode(x) + (", " + (EncodeItems(xs) + "]" + rest))
  {
    assert ([x] + xs)[0] == x && ([x] + xs)[1..] == xs;
  }

  lemma {:induction false} ParseEncodedItems(items: seq<Value>, rest: string)
    requires items != []
    ensures ParseItems(EncodeItems(items) + "]" + rest) == Some((items, rest))
    decreases items, 0
  {
    var x, tl := items[0], items[1..];
    assert items == [x] + tl;
    if tl == [] {
      assert items == [x];
      ParseEncoded(x, "]" + rest);
      ItemsOne(x, rest);
    } else {
      var t := EncodeItems(tl) + "]" + rest;
      ParseEncoded(x, ", " + t);
      ParseEncodedItems(tl, rest);
      ItemsCons(x, tl, rest);
    }
  }

  lemma {:induction false} ItemsOne(x: Value, rest: string)
    requires ParseValue(Encode(x) + ("]" + rest)) == Some((x, "]" + rest))
    ensures ParseItems(EncodeItems([x]) + "]" + rest) == Some(([x], rest))
  {
    EncodeItemsOne(x, rest);
    ItemsLast(EncodeItems([x]) + "]" + rest, x, rest);
  }

  lemma {:induction false} ItemsCons(x: Value, xs: seq<Value>, rest: string)
    requires xs != []
    requires ParseValue(Encode(x) + (", " + (EncodeItems(xs) + "]" + rest)))
      == Some((x, ", " + (EncodeItems(xs) + "]" + rest)))
    requires ParseItems(EncodeItems(xs) + "]" + rest) == Some((xs, rest))
    ensures ParseItems(EncodeItems([x] + xs) + "]" + rest) == Some(([x] + xs, rest))
  {
    var t := EncodeItems(xs) + "]" + rest;
    EncodeItemsCons(x, xs, rest);
    ItemsNext(EncodeItems([x] + xs) + "]" + rest, x, t, xs, rest);
  }

  lemma {:induction false} DropQuote(key: string, tail: string)
    ensures ("\"" + (Escaped(key) + "\"" + (": " + tail)))[1..] == Escaped(key) + "\"" + (": " + tail)
  {
  }

  lemma {:induction false} ParseKey(key: string, tail: string)
    ensures ParseStr(Escaped(key) + "\"" + (": " + tail)) == Some((key, ": " + tail))
  {
    ParseEscaped(key, ": " + tail);
  }

  lemma {:induction false} SkipColon(tail: string)
    ensures SkipWs(": " + tail) == ": " + tail
    ensures (": " + tail)[1..] == " " + tail
  {
    SkipWsNone(": " + tail);
  }

  lemma {:induction false} ParseValueSpace(tail: string)
    ensures ParseValue(" " + tail) == ParseValue(tail)
  {
    SkipWsSpace(tail);
  }

  lemma {:induction false} SkipQuote(key: string, tail: string)
    ensures SkipWs("\"" + (Escaped(key) + "\"" + (": " + tail))) == "\"" + (Escaped(key) + "\"" + (": " + tail))
  {
    SkipWsNone("\"" + (Escaped(key) + "\"" + (": " + tail)));
  }

  lemma {:induction false} KeyColonText(key: string, tail: string)
    ensures ParseKeyColon("\"" + (Escaped(key) + "\"" + (": " + tail))) == Some((key, " " + tail))
  {
    DropQuote(key, tail);
    ParseKey(key, tail);
    SkipColon(tail);
    SkipQuote(key, tail);
  }

  lemma {:induction false} ParseMemberText(key: string, v: Value, after: string, tail: string)
    requires ParseValue(tail) == Some((v, after))
    ensures ParseMember("\"" + (Escaped(key) + "\"" + (": " + tail))) == Some((Member(key, v), after))
  {
    KeyColonText(key, tail);
    ParseValueSpace(tail);
  }

  lemma {:induction false} EncodeMemberText(m: Member, after: string)
    ensures EncodeMember(m) + after == "\"" + (Escaped(m.key) + "\"" + (": " + (Encode(m.val) + after)))
  {
  }

  lemma {:induction false} ParseEncodedMember(m: Member, after: string)
    requires after == [] || !IsDigit(after[0])
    ensures ParseMember(EncodeMember(m) + after) == Some((m, after))
    decreases m, 0
  {
    ParseEncoded(m.val, after);
    EncodeMemberText(m, after);
    ParseMemberText(m.key, m.val, after, Encode(m.val) + after);
  }

  /** After an entry, a closing brace ends the object. */
  lemma {:induction false} MembersLast(s: string, m: Member, t: string)
    requires ParseMember(s) == Some((m, "}" + t))
    ensures ParseMembers(s) == Some(([m], t))
  {
    Punctuated('}', t);
    MembersClose(s, m, "}" + t, t);
  }

  lemma {:induction false} MembersClose(s: string, m: Member, s1: string, t: string)
    requires ParseMember(s) == Some((m, s1))
    requires SkipWs(s1) == s1 && s1 != [] && s1[0] == '}' && s1[1..] == t
    ensures ParseMembers(s) == Some(([m], t))
  {
  }

  /** After an entry, a comma and a space continue the object. */
  lemma {:induction false} MembersNext(s: string, m: Member, t: string, ms: seq<Member>, rest: string)
    requires ParseMember(s) == Some((m, ", " + t))
    requires ParseMembers(t) == Some((ms, rest))
    ensures ParseMembers(s) == Some(([m] + ms, rest))
  {
    CommaSpace(t);
    ParseMembersSpace(t);
    MembersComma(s, m, ", " + t, t, ms, rest);
  }

  lemma {:induction false} MembersComma(s: string, m: Member, s1: string, t: string, ms: seq<Member>, rest: string)
    requires ParseMember(s) == Some((m, s1))
    requires SkipWs(s1) == s1 && s1 != [] && s1[0] == ',' && s1[1..] == " " + t
    requires ParseMembers(" " + t) == Some((ms, rest))
    ensures ParseMembers(s) == Some(([m] + ms, rest))
  {
  }

  lemma {:induction false} EncodeMembersOne(m: Member, rest: string)
    ensures EncodeMembers([m]) + "}" + rest == EncodeMember(m) + ("}" + rest)
  {
  }

  lemma {:induction false} EncodeMembersCons(m: Member, ms: seq<Member>, rest: string)
    requires ms != []
    ensures EncodeMembers([m] + ms) + "}" + rest == EncodeMember(m) + (", " + (EncodeMembers(ms) + "}" + rest))
  {
    assert ([m] + ms)[0] == m && ([m] + ms)[1..] == ms;
  }

  lemma {:induction false} ParseEncodedMembers(ms: seq<Member>, rest: string)
    requires ms != []
    ensures ParseMembers(EncodeMembers(ms) + "}" + rest) == Some((ms, rest))
    decreases ms, 0
  {
    var m, tl := ms[0], ms[1..];
    assert ms == [m] + tl;
    if tl == [] {
      assert ms == [m];
      ParseEncodedMember(m, "}" + rest);
      MembersOne(m, rest);
    } else {
      var t := EncodeMembers(tl) + "}" + rest;
      ParseEncodedMember(m, ", " + t);
      ParseEncodedMembers(tl, rest);
      MembersCons(m, tl, rest);
    }
  }

  lemma {:induction false} MembersOne(m: Member, rest: string)
    requires ParseMember(EncodeMember(m) + ("}" + rest)) == Some((m, "}" + rest))
    ensures ParseMembers(EncodeMembers([m]) + "}" + rest) == Some(([m], rest))
  {
    EncodeMembersOne(m, rest);
    MembersLast(EncodeMembers([m]) + "}" + rest, m, rest);
  }

  lemma {:induction false} MembersCons(m: Member, ms: seq<Member>, rest: string)
    requires ms != []
    requires ParseMember(EncodeMember(m) + (", " + (EncodeMembers(ms) + "}" + rest)))
      == Some((m, ", " + (EncodeMembers(ms) + "}" + rest)))
    requires ParseMembers(EncodeMembers(ms) + "}" + rest) == Some((ms, rest))
    ensures ParseMembers(EncodeMembers([m] + ms) + "}" + rest) == Some(([m] + ms, rest))
  {
    var t := EncodeMembers(ms) + "}" + rest;
    EncodeMembersCons(m, ms, rest);
    MembersNext(EncodeMembers([m] + ms) + "}" + rest, m, t, ms, rest);
  }

  /** `json.loads(json.dumps(v)) == v`. */
  lemma DecodeEncode(v: Value)
    ensures Decode(Encode(v)) == Some(v)
  {
    ParseEncoded(v, "");
    assert Encode(v) + "" == Encode(v);
  }

  /** `json.loads` of the text "123" is the number 123, not the string. */
  lemma DecodeNumberText()
    ensures Decode("123") == Some(Int(123))
  {
    assert NatText(123) == "123" by {
      assert NatText(1) == "1";
      assert NatText(12) == NatText(1) + "2";
    }
    DecodeEncode(Int(123));
  }
}
