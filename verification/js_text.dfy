/**
 * The few JavaScript string operations the credential code relies on:
 * truthiness of an optional string, `\s` and `String.prototype.trim`,
 * `indexOf` and the first two fields of `split`.
 */
module JsText {
  import opened Wrappers

  /** The characters ECMAScript counts as WhiteSpace or LineTerminator: what `\s` matches and `trim` strips. */
  predicate IsWhitespace(c: char) {
    || c == '\t' || c == '\n' || c == '\U{0B}' || c == '\U{0C}' || c == '\r' || c == ' '
    || c == '\U{A0}' || c == '\U{1680}' || ('\U{2000}' <= c <= '\U{200A}')
    || c == '\U{2028}' || c == '\U{2029}' || c == '\U{202F}' || c == '\U{205F}'
    || c == '\U{3000}' || c == '\U{FEFF}'
  }

  /** JavaScript truthiness of an optional string: `undefined` and `''` are both falsy. */
  predicate Truthy(s: Option<string>) {
    s.Some? && s.value != ""
  }

  function TrimStart(s: string): (r: string)
    ensures |r| <= |s| && r == s[|s| - |r|..]
    ensures r == [] || !IsWhitespace(r[0])
    ensures forall i :: 0 <= i < |s| - |r| ==> IsWhitespace(s[i])
  {
    if s != [] && IsWhitespace(s[0]) then TrimStart(s[1..]) else s
  }

  function TrimEnd(s: string): (r: string)
    ensures |r| <= |s| && r == s[..|r|]
    ensures r == [] || !IsWhitespace(r[|r| - 1])
    ensures forall i :: |r| <= i < |s| ==> IsWhitespace(s[i])
  {
    if s != [] && IsWhitespace(s[|s| - 1]) then TrimEnd(s[..|s| - 1]) else s
  }

  /** `s.trim()`: the longest slice of `s` that neither starts nor ends with whitespace. */
  function Trim(s: string): (r: string)
    ensures |r| <= |s|
    ensures r == [] || (!IsWhitespace(r[0]) && !IsWhitespace(r[|r| - 1]))
    ensures forall c :: c in r ==> c in s
  {
    var t := TrimStart(s);
    var r := TrimEnd(t);
    assert forall c :: c in r ==> c in t;
    r
  }

  /** `s.indexOf(c)`, with "not found" reported as `|s|`. */
  function FirstIndex(s: string, c: char): (i: nat)
    ensures i <= |s|
    ensures i < |s| ==> s[i] == c
    ensures c !in s[..i]
  {
    if s == [] then 0
    else if s[0] == c then 0
    else
      var j := FirstIndex(s[1..], c);
      assert s[..j + 1] == [s[0]] + s[1..][..j];
      1 + j
  }

  /** `s.split(sep)[0]`: the text before the first separator, or the whole of `s`. */
  function FirstField(s: string, sep: char): (f: string)
    ensures sep !in f
    ensures f <= s
    ensures |f| == |s| <==> sep !in s
  {
    var i := FirstIndex(s, sep);
    assert i < |s| ==> sep in s;
    s[..i]
  }

  /** `s.split(sep)[1]`: the text between the first and the second separator; `undefined` when there is none. */
  function SecondField(s: string, sep: char): (f: Option<string>)
    ensures f.None? <==> sep !in s
    ensures f.Some? ==> sep !in f.value
  {
    var i := FirstIndex(s, sep);
    if i == |s| then
      assert s[..i] == s;
      None
    else
      Some(FirstField(s[i + 1..], sep))
  }

  lemma {:induction false} FirstIndexOfJoin(a: string, sep: char, b: string)
    requires sep !in a
    ensures FirstIndex(a + [sep] + b, sep) == |a|
  {
    if a != [] {
      assert (a + [sep] + b)[1..] == a[1..] + [sep] + b;
      FirstIndexOfJoin(a[1..], sep, b);
    }
  }

  /** Splitting `a + sep + b`, where `a` holds no separator, gives back `a` and the first field of `b`. */
  lemma FieldsOfJoin(a: string, sep: char, b: string)
    requires sep !in a
    ensures FirstField(a + [sep] + b, sep) == a
    ensures SecondField(a + [sep] + b, sep) == Some(FirstField(b, sep))
  {
    var s := a + [sep] + b;
    FirstIndexOfJoin(a, sep, b);
    assert s[..|a|] == a;
    assert s[|a| + 1..] == b;
  }
}
