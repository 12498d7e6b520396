/** The few pieces of JavaScript value semantics the scraper relies on:
    truthiness, `String(v)`, `String.prototype.trim` and upper-casing one character. */
module Js {

  datatype Option<+T> = None | Some(value: T)

  /** A field value of a scraped record: a string, a boolean, or `undefined`. */
  datatype Value = Str(s: string) | Bool(b: bool) | Absent

  /** JavaScript truthiness of a field value. */
  predicate Truthy(v: Value) {
    match v
    case Str(s) => s != ""
    case Bool(b) => b
    case Absent => false
  }

  /** `String(v)`, as `toString()` and template literals produce it. */
  function ToText(v: Value): string {
    match v
    case Str(s) => s
    case Bool(b) => if b then "true" else "false"
    case Absent => "undefined"
  }

  /** `v || ''` inside a template literal: falsy values print as nothing. */
  function TextOrEmpty(v: Value): (r: string)
    ensures !Truthy(v) ==> r == ""
    ensures Truthy(v) ==> r == ToText(v) && r != ""
  {
    if Truthy(v) then ToText(v) else ""
  }

  /** The characters `trim` removes: ECMAScript WhiteSpace and LineTerminator. */
  predicate IsSpace(c: char) {
    c == '\t' || c == '\n' || c == '\U{0B}' || c == '\U{0C}' || c == '\r' || c == ' '
    || c == '\U{A0}' || c == '\U{1680}' || ('\U{2000}' <= c <= '\U{200A}')
    || c == '\U{2028}' || c == '\U{2029}' || c == '\U{202F}' || c == '\U{205F}'
    || c == '\U{3000}' || c == '\U{FEFF}'
  }

  predicate AllSpace(s: string) {
    forall i :: 0 <= i < |s| ==> IsSpace(s[i])
  }

  /** `s` without its leading white space. */
  function TrimStart(s: string): (r: string)
    ensures |r| <= |s|
  {
    if s != [] && IsSpace(s[0]) then TrimStart(s[1..]) else s
  }

  /** `s` without its trailing white space. */
  function TrimEnd(s: string): (r: string)
    ensures |r| <= |s|
  {
    if s != [] && IsSpace(s[|s| - 1]) then TrimEnd(s[..|s| - 1]) else s
  }

  /** `TrimStart` removes a run of spaces in front and stops at a non-space. */
  lemma {:induction false} TrimStartShape(s: string)
    ensures |TrimStart(s)| <= |s| && TrimStart(s) == s[|s| - |TrimStart(s)|..]
    ensures AllSpace(s[..|s| - |TrimStart(s)|])
    ensures TrimStart(s) == [] || !IsSpace(TrimStart(s)[0])
  {
    if s != [] && IsSpace(s[0]) {
      var t := s[1..];
      TrimStartShape(t);
      var n := |t| - |TrimStart(t)|;
      assert t[n..] == s[n + 1..];
      assert s[..n + 1] == [s[0]] + t[..n];
    }
  }

  /** `TrimEnd` removes a run of spaces behind and stops at a non-space. */
  lemma {:induction false} TrimEndShape(s: string)
    ensures |TrimEnd(s)| <= |s| && TrimEnd(s) == s[..|TrimEnd(s)|]
    ensures AllSpace(s[|TrimEnd(s)|..])
    ensures TrimEnd(s) == [] || !IsSpace(TrimEnd(s)[|TrimEnd(s)| - 1])
  {
    if s != [] && IsSpace(s[|s| - 1]) {
      var p := s[..|s| - 1];
      TrimEndShape(p);
      assert s[|TrimEnd(s)|..] == p[|TrimEnd(p)|..] + [s[|s| - 1]];
    }
  }

  /** `s.trim()`. */
  function Trim(s: string): string {
    TrimEnd(TrimStart(s))
  }

  /** The white space `trim` removes in front, and behind. */
  function Lead(s: string): string { s[..|s| - |TrimStart(s)|] }
  function Trail(s: string): string { TrimStart(s)[|Trim(s)|..] }

  /** `s.trim()` cuts `s` into leading spaces, the result and trailing spaces. */
  lemma TrimShape(s: string)
    ensures s == Lead(s) + Trim(s) + Trail(s)
    ensures AllSpace(Lead(s)) && AllSpace(Trail(s))
  {
    var t := TrimStart(s);
    TrimStartShape(s);
    TrimEndShape(t);
    SplitAt(s, |s| - |t|);
    SplitAt(t, |Trim(s)|);
    AppendAssoc(Lead(s), Trim(s), Trail(s));
    TrailIsSpace(s);
  }

  lemma TrailIsSpace(s: string)
    ensures AllSpace(Trail(s))
  {
    var t := TrimStart(s);
    TrimStartShape(s);
    TrimEndShape(t);
    assert Trail(s) == t[|TrimEnd(t)|..];
  }

  /** What `trim` returns neither begins nor ends with white space. */
  lemma TrimEdges(s: string)
    ensures Trim(s) == [] || (!IsSpace(Trim(s)[0]) && !IsSpace(Trim(s)[|Trim(s)| - 1]))
  {
    var t := TrimStart(s);
    var r := TrimEnd(t);
    TrimStartShape(s);
    TrimEndShape(t);
    if r != [] {
      assert r[0] == t[0];
    }
  }

  /** Trimming what is already trimmed changes nothing. */
  lemma TrimIdempotent(s: string)
    ensures Trim(Trim(s)) == Trim(s)
  {
    var r := Trim(s);
    TrimEdges(s);
    assert TrimStart(r) == r by {
      if r != [] { assert !IsSpace(r[0]); }
    }
    assert TrimEnd(r) == r by {
      if r != [] { assert !IsSpace(r[|r| - 1]); }
    }
  }

  /** The value compared by the diff: `v ? v.toString().trim() : ''`. */
  function Normalized(v: Value): string {
    if Truthy(v) then Trim(ToText(v)) else ""
  }

  /** For strings the falsy guard is invisible (`''.trim()` is `''`); `false` and
      `undefined` both normalise to the empty string, and `true` to "true". */
  lemma NormalizedCases(v: Value)
    ensures v.Str? ==> Normalized(v) == Trim(v.s)
    ensures v.Absent? || v == Bool(false) ==> Normalized(v) == ""
    ensures v == Bool(true) ==> Normalized(v) == "true"
  {
    match v
    case Str(s) =>
      if s == "" {
        assert TrimStart(s) == s;
        assert TrimEnd(s) == s;
      }
    case Bool(b) =>
      if b {
        assert !IsSpace('t') && !IsSpace('e');
        assert TrimStart("true") == "true";
        assert TrimEnd("true") == "true";
      }
    case Absent =>
  }

  /** The ASCII upper-case of a character; other characters are left alone. */
  function UpperAscii(c: char): (r: char)
    ensures 'a' <= c <= 'z' ==> r as int == c as int - 32
    ensures !('a' <= c <= 'z') ==> r == c
  {
    if 'a' <= c <= 'z' then (c as int - 32) as char else c
  }

  /** `key.charAt(0).toUpperCase() + key.slice(1)`. */
  function Capitalize(key: string): (r: string)
    ensures |r| == |key|
    ensures key != [] ==> r[0] == UpperAscii(key[0]) && r[1..] == key[1..]
  {
    if key == [] then [] else [UpperAscii(key[0])] + key[1..]
  }

  /** Capitalising twice is capitalising once, and a label is unchanged exactly
      when its key does not start with a lower-case letter. */
  lemma CapitalizeIdempotent(key: string)
    ensures Capitalize(Capitalize(key)) == Capitalize(key)
    ensures Capitalize(key) == key <==> (key == [] || !('a' <= key[0] <= 'z'))
  {
    if key != [] {
      assert Capitalize(key)[0] == UpperAscii(key[0]);
    }
  }

  /** JavaScript `\w`: `[A-Za-z0-9_]`. */
  predicate IsWordChar(c: char) {
    ('A' <= c <= 'Z') || ('a' <= c <= 'z') || ('0' <= c <= '9') || c == '_'
  }

  predicate AllWord(s: string) {
    forall i :: 0 <= i < |s| ==> IsWordChar(s[i])
  }

  /** Concatenation regroups freely; stated once so that loops appending to a buffer
      do not make the solver rediscover it. */
  lemma AppendAssoc<T>(a: seq<T>, b: seq<T>, c: seq<T>)
    ensures (a + b) + c == a + (b + c)
  {
  }

  /** A sequence is its prefix followed by the rest. */
  lemma SplitAt<T>(s: seq<T>, n: nat)
    requires n <= |s|
    ensures s == s[..n] + s[n..]
  {
  }

  /** Indexing past the head of a sequence. */
  lemma ConsIndex<T>(x: T, xs: seq<T>, k: nat)
    requires 0 < k <= |xs|
    ensures ([x] + xs)[k] == xs[k - 1]
  {
  }

  /** The last element of a sequence with a head in front. */
  lemma ConsLast<T>(x: T, xs: seq<T>)
    requires xs != []
    ensures ([x] + xs)[|xs|] == xs[|xs| - 1]
  {
  }
}
