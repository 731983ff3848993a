/** The few JavaScript runtime notions the controller and the error handler
    depend on: dynamically typed JSON values, truthiness (the `!x` and `x || y`
    operators), `typeof` tests and `String.prototype.trim`. */
module Js {

  datatype Option<+T> = None | Some(value: T)

  /** A value as it arrives in a parsed request body or an error object.
      `Undefined` is a missing property; arrays and objects are not told apart
      because the code under model only asks whether a value is one of them. */
  datatype JsValue =
    | Undefined
    | Null
    | Bool(b: bool)
    | Num(n: int)
    | Str(s: string)
    | Obj

  /** ECMAScript ToBoolean: `undefined`, `null`, `false`, `0` and `""` are falsy. */
  predicate Truthy(v: JsValue)
    ensures !Truthy(v) <==> v in {Undefined, Null, Bool(false), Num(0), Str("")}
  {
    match v
    case Undefined => false
    case Null => false
    case Bool(b) => b
    case Num(n) => n != 0
    case Str(s) => s != ""
    case Obj => true
  }

  /** `a || b`: the left operand when it is truthy, the right one otherwise. */
  function Or(a: JsValue, b: JsValue): (r: JsValue)
    ensures Truthy(a) ==> r == a
    ensures !Truthy(a) ==> r == b
  {
    if Truthy(a) then a else b
  }

  /** The characters `trim` removes: WhiteSpace and LineTerminator of
      ECMAScript (tab, vertical tab, form feed, space, no-break space, byte
      order mark, every space separator, line feed, carriage return, line and
      paragraph separators). */
  predicate IsWhiteSpace(c: char)
  {
    || c == '\t' || c == '\U{000B}' || c == '\U{000C}' || c == ' '
    || c == '\U{00A0}' || c == '\U{FEFF}'
    || c == '\U{1680}' || ('\U{2000}' <= c <= '\U{200A}')
    || c == '\U{202F}' || c == '\U{205F}' || c == '\U{3000}'
    || c == '\n' || c == '\r' || c == '\U{2028}' || c == '\U{2029}'
  }

  predicate AllWhiteSpace(s: string)
  {
    forall k :: 0 <= k < |s| ==> IsWhiteSpace(s[k])
  }

  /** `String.prototype.trimStart`. */
  function TrimStart(s: string): string
    decreases |s|
  {
    if |s| > 0 && IsWhiteSpace(s[0]) then TrimStart(s[1..]) else s
  }

  /** `String.prototype.trimEnd`. */
  function TrimEnd(s: string): string
    decreases |s|
  {
    if |s| > 0 && IsWhiteSpace(s[|s| - 1]) then TrimEnd(s[..|s| - 1]) else s
  }

  /** `String.prototype.trim`. */
  function Trim(s: string): string
  {
    TrimEnd(TrimStart(s))
  }

  /** `trimStart` drops the leading white space, and only that: it keeps a
      suffix, cuts nothing but white space, and the suffix does not start
      with white space. */
  lemma {:induction false} TrimStartCutsLeadingSpace(s: string)
    ensures |TrimStart(s)| <= |s| && TrimStart(s) == s[|s| - |TrimStart(s)|..]
    ensures AllWhiteSpace(s[..|s| - |TrimStart(s)|])
    ensures TrimStart(s) == [] || !IsWhiteSpace(TrimStart(s)[0])
    decreases |s|
  {
    if |s| > 0 && IsWhiteSpace(s[0]) {
      var t := s[1..];
      var r := TrimStart(t);
      TrimStartCutsLeadingSpace(t);
      assert TrimStart(s) == r;
      assert t[|t| - |r|..] == s[|s| - |r|..];
      var cut := s[..|s| - |r|];
      forall k | 0 <= k < |cut| ensures IsWhiteSpace(cut[k]) {
        if k > 0 {
          assert cut[k] == t[..|t| - |r|][k - 1];
        }
      }
    } else {
      assert s[..0] == [];
    }
  }

  /** `trimEnd` drops the trailing white space, and only that. */
  lemma {:induction false} TrimEndCutsTrailingSpace(s: string)
    ensures |TrimEnd(s)| <= |s| && TrimEnd(s) == s[..|TrimEnd(s)|]
    ensures AllWhiteSpace(s[|TrimEnd(s)|..])
    ensures TrimEnd(s) == [] || !IsWhiteSpace(TrimEnd(s)[|TrimEnd(s)| - 1])
    decreases |s|
  {
    if |s| > 0 && IsWhiteSpace(s[|s| - 1]) {
      var t := s[..|s| - 1];
      var r := TrimEnd(t);
      TrimEndCutsTrailingSpace(t);
      assert TrimEnd(s) == r;
      assert t[..|r|] == s[..|r|];
      var cut := s[|r|..];
      forall k | 0 <= k < |cut| ensures IsWhiteSpace(cut[k]) {
        if k < |cut| - 1 {
          assert cut[k] == t[|r|..][k];
        }
      }
    } else {
      assert s[|s|..] == [];
    }
  }

  /** What `trim` keeps is a slice of its input, with only white space cut off
      at either end, and it neither starts nor ends with white space. */
  lemma TrimIsInnerSlice(s: string)
    ensures exists i ::
              && 0 <= i <= i + |Trim(s)| <= |s|
              && Trim(s) == s[i..i + |Trim(s)|]
              && AllWhiteSpace(s[..i]) && AllWhiteSpace(s[i + |Trim(s)|..])
    ensures Trim(s) == [] || (!IsWhiteSpace(Trim(s)[0]) && !IsWhiteSpace(Trim(s)[|Trim(s)| - 1]))
  {
    var a := TrimStart(s);
    var r := TrimEnd(a);
    var i := |s| - |a|;
    TrimStartCutsLeadingSpace(s);
    TrimEndCutsTrailingSpace(a);
    assert a == s[i..];
    assert r == s[i..i + |r|];
    assert s[i + |r|..] == a[|r|..];
    if r != [] {
      assert r[0] == a[0];
    }
  }

  /** `s.trim().length === 0` holds exactly for strings made only of white space. */
  lemma TrimEmptyIffAllWhiteSpace(s: string)
    ensures Trim(s) == [] <==> AllWhiteSpace(s)
  {
    var a := TrimStart(s);
    var i := |s| - |a|;
    TrimStartCutsLeadingSpace(s);
    TrimEndCutsTrailingSpace(a);
    if Trim(s) == [] {
      assert a[0..] == a;
      assert s[..i] == s;
    }
    assert a != [] ==> a[0] == s[i];
  }

  /** Trimming twice is trimming once. */
  lemma TrimIdempotent(s: string)
    ensures Trim(Trim(s)) == Trim(s)
  {
    var r := Trim(s);
    TrimIsInnerSlice(s);
    TrimStartCutsLeadingSpace(r);
    TrimEndCutsTrailingSpace(r);
    assert TrimStart(r) == r;
    assert TrimEnd(r) == r;
  }
}
