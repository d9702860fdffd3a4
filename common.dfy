/**
 * Shared vocabulary of the model: an Option type, the JSON-like values a
 * request carries, and the handful of PHP and JavaScript string primitives
 * the core relies on (trim, lower-casing, substring search, split, decimal
 * formatting of integers).
 */
module Common {

  datatype Option<+T> = None | Some(value: T) {
    function GetOr(default: T): T {
      match this
      case Some(v) => v
      case None => default
    }
  }

  /**
   * A decoded request value (JSON body or form field). PHP arrays that are
   * lists become VList, associative ones VObject.
   */
  datatype Value =
    | VNull
    | VBool(b: bool)
    | VNum(n: real)
    | VStr(s: string)
    | VList(items: seq<Value>)
    | VObject(fields: map<string, Value>)

  /** The value stored under `key` in an object, if any. */
  function Field(v: Value, key: string): Option<Value> {
    if v.VObject? && key in v.fields then Some(v.fields[key]) else None
  }

  // ---------------------------------------------------------------------
  // Characters

  predicate IsAsciiDigit(c: char) { '0' <= c <= '9' }

  function DigitValue(c: char): nat
    requires IsAsciiDigit(c)
  {
    (c as int - '0' as int) as nat
  }

  /** JavaScript's toLowerCase restricted to the ASCII letters. */
  function AsciiLower(c: char): (r: char)
    ensures 'A' <= c <= 'Z' ==> 'a' <= r <= 'z'
    ensures !('A' <= c <= 'Z') ==> r == c
  {
    if 'A' <= c <= 'Z' then (c as int + 32) as char else c
  }

  function ToLower(s: string): (r: string)
    ensures |r| == |s|
    ensures forall i :: 0 <= i < |s| ==> r[i] == AsciiLower(s[i])
  {
    if s == [] then [] else [AsciiLower(s[0])] + ToLower(s[1..])
  }

  /** The characters PHP's trim() strips by default: " \t\n\r\0\x0B". */
  predicate IsPhpSpace(c: char) {
    c == ' ' || c == '\t' || c == '\n' || c == '\r' || c == '\0' || c == '\U{B}'
  }

  /**
   * The characters JavaScript's String.prototype.trim strips: white space
   * (tab, vertical tab, form feed, space, no-break space, byte order mark,
   * the Unicode space separators) and the line terminators.
   */
  predicate IsJsSpace(c: char) {
    || c == '\t' || c == '\U{B}' || c == '\U{C}' || c == ' ' || c == '\U{A0}'
    || c == '\U{FEFF}' || c == '\n' || c == '\r' || c == '\U{2028}' || c == '\U{2029}'
    || c == '\U{1680}' || ('\U{2000}' <= c <= '\U{200A}') || c == '\U{202F}'
    || c == '\U{205F}' || c == '\U{3000}'
  }

  // ---------------------------------------------------------------------
  // Trimming

  function TrimStart(s: string, isSpace: char -> bool): (r: string)
    ensures |r| <= |s| && r == s[|s| - |r|..]
    ensures r == [] || !isSpace(r[0])
    ensures forall i :: 0 <= i < |s| - |r| ==> isSpace(s[i])
  {
    if s != [] && isSpace(s[0]) then TrimStart(s[1..], isSpace) else s
  }

  function TrimEnd(s: string, isSpace: char -> bool): (r: string)
    ensures |r| <= |s| && r == s[..|r|]
    ensures r == [] || !isSpace(r[|r| - 1])
    ensures forall i :: |r| <= i < |s| ==> isSpace(s[i])
  {
    if s != [] && isSpace(s[|s| - 1]) then TrimEnd(s[..|s| - 1], isSpace) else s
  }

  function Trim(s: string, isSpace: char -> bool): string {
    TrimEnd(TrimStart(s, isSpace), isSpace)
  }

  function PhpTrim(s: string): string { Trim(s, IsPhpSpace) }

  function JsTrim(s: string): string { Trim(s, IsJsSpace) }

  /** A string with no white space at either end is its own trim. */
  lemma TrimOfTrimmed(s: string, isSpace: char -> bool)
    requires s == [] || (!isSpace(s[0]) && !isSpace(s[|s| - 1]))
    ensures Trim(s, isSpace) == s
  {
  }

  /** Trim removes exactly the white space padding around a trimmed core. */
  lemma {:induction false} TrimPadded(pre: string, core: string, post: string, isSpace: char -> bool)
    requires forall i :: 0 <= i < |pre| ==> isSpace(pre[i])
    requires forall i :: 0 <= i < |post| ==> isSpace(post[i])
    requires core != [] && !isSpace(core[0]) && !isSpace(core[|core| - 1])
    ensures Trim(pre + core + post, isSpace) == core
  {
    var s := pre + core + post;
    TrimStartPadded(pre, core + post, isSpace);
    assert TrimStart(s, isSpace) == core + post by {
      assert s == pre + (core + post);
    }
    TrimEndPadded(core, post, isSpace);
  }

  lemma {:induction false} TrimStartPadded(pre: string, rest: string, isSpace: char -> bool)
    requires forall i :: 0 <= i < |pre| ==> isSpace(pre[i])
    requires rest != [] && !isSpace(rest[0])
    ensures TrimStart(pre + rest, isSpace) == rest
  {
    var s := pre + rest;
    if pre == [] {
      assert s == rest;
    } else {
      var more := pre[1..];
      assert s[0] == pre[0] && isSpace(s[0]);
      assert s[1..] == more + rest;
      assert forall i :: 0 <= i < |more| ==> isSpace(more[i]) by {
        assert forall i :: 0 <= i < |more| ==> more[i] == pre[i + 1];
      }
      TrimStartPadded(more, rest, isSpace);
      assert TrimStart(s, isSpace) == TrimStart(s[1..], isSpace);
    }
  }

  lemma {:induction false} TrimEndPadded(rest: string, post: string, isSpace: char -> bool)
    requires forall i :: 0 <= i < |post| ==> isSpace(post[i])
    requires rest != [] && !isSpace(rest[|rest| - 1])
    ensures TrimEnd(rest + post, isSpace) == rest
  {
    if post != [] {
      var s := rest + post;
      assert s[..|s| - 1] == rest + post[..|post| - 1];
      TrimEndPadded(rest, post[..|post| - 1], isSpace);
    }
  }

  /** A string made only of white space trims to the empty string. */
  lemma {:induction false} TrimAllSpace(s: string, isSpace: char -> bool)
    requires forall i :: 0 <= i < |s| ==> isSpace(s[i])
    ensures Trim(s, isSpace) == []
  {
    if s != [] {
      TrimAllSpace(s[1..], isSpace);
      assert TrimStart(s, isSpace) == TrimStart(s[1..], isSpace);
    }
  }

  // ---------------------------------------------------------------------
  // Substring search and splitting

  /** JavaScript's hay.includes(needle). */
  predicate Contains(hay: string, needle: string)
    decreases |hay|
  {
    needle <= hay || (hay != [] && Contains(hay[1..], needle))
  }

  /** Every string contains the empty string. */
  lemma EmptyIsContained(hay: string)
    ensures Contains(hay, [])
  {
  }

  /** JavaScript's s.split(sep) for a one-character separator. */
  function Split(s: string, sep: char): (r: seq<string>)
    ensures |r| >= 1
    ensures sep !in s ==> r == [s]
    ensures sep in s ==> |r| >= 2
    ensures forall i :: 0 <= i < |r| ==> sep !in r[i]
    decreases |s|
  {
    if s == [] then [[]]
    else
      var rest := Split(s[1..], sep);
      assert s == [s[0]] + s[1..];
      if s[0] == sep then [[]] + rest else [[s[0]] + rest[0]] + rest[1..]
  }

  /** Array.prototype.join with a one-character separator. */
  function Join(parts: seq<string>, sep: char): string
    decreases |parts|
  {
    if |parts| <= 1 then (if parts == [] then [] else parts[0])
    else parts[0] + [sep] + Join(parts[1..], sep)
  }

  /** Joining the pieces of a split gives back the original string. */
  lemma {:induction false} SplitJoin(s: string, sep: char)
    ensures Join(Split(s, sep), sep) == s
    decreases |s|
  {
    if s != [] {
      var rest := Split(s[1..], sep);
      SplitJoin(s[1..], sep);
      if s[0] == sep {
        assert [sep] + Join(rest, sep) == s;
      } else if |rest| == 1 {
        assert Split(s, sep) == [[s[0]] + rest[0]];
        assert s == [s[0]] + s[1..];
      } else {
        var r := Split(s, sep);
        var tail := Join(rest[1..], sep);
        assert Join(r, sep) == ([s[0]] + rest[0]) + [sep] + tail by {
          assert r[0] == [s[0]] + rest[0] && r[1..] == rest[1..];
        }
        assert Join(rest, sep) == rest[0] + [sep] + tail;
        assert ([s[0]] + rest[0]) + [sep] + tail == [s[0]] + (rest[0] + [sep] + tail);
        assert s == [s[0]] + s[1..];
      }
    }
  }

  /** What follows the second piece of a split: nothing, or the separator and the remaining pieces. */
  function SplitRest(parts: seq<string>, sep: char): string {
    if |parts| <= 2 then [] else [sep] + Join(parts[2..], sep)
  }

  /** Joining two or more pieces puts the separator after the first one. */
  lemma JoinCons(p: seq<string>, sep: char)
    requires |p| >= 2
    ensures Join(p, sep) == p[0] + [sep] + Join(p[1..], sep)
  {
  }

  /** The pieces after the first join to the second piece followed by the rest. */
  lemma JoinTail(p: seq<string>, sep: char)
    requires |p| >= 2
    ensures Join(p[1..], sep) == p[1] + SplitRest(p, sep)
  {
    var tail := p[1..];
    if |p| > 2 {
      JoinCons(tail, sep);
      assert tail[1..] == p[2..];
    }
  }

  /** A join of at least two pieces is the first piece, the separator, the second piece and the rest. */
  lemma JoinFirstTwo(p: seq<string>, sep: char)
    requires |p| >= 2
    ensures Join(p, sep) == p[0] + [sep] + p[1] + SplitRest(p, sep)
    ensures SplitRest(p, sep) == [] || SplitRest(p, sep)[0] == sep
  {
    JoinCons(p, sep);
    JoinTail(p, sep);
    var head, rest := p[0] + [sep], SplitRest(p, sep);
    assert head + (p[1] + rest) == head + p[1] + rest;
  }

  /** A string with the separator is its first piece, the separator, its second piece and the rest. */
  lemma SplitFirstTwo(s: string, sep: char)
    requires sep in s
    ensures var p := Split(s, sep);
      && s == p[0] + [sep] + p[1] + SplitRest(p, sep)
      && (SplitRest(p, sep) == [] || SplitRest(p, sep)[0] == sep)
  {
    SplitJoin(s, sep);
    JoinFirstTwo(Split(s, sep), sep);
  }

  /** Splitting "a<sep>b" where neither side holds the separator gives [a, b]. */
  lemma {:induction false} SplitTwo(a: string, b: string, sep: char)
    requires sep !in a && sep !in b
    ensures Split(a + [sep] + b, sep) == [a, b]
    decreases |a|
  {
    if a == [] {
      assert a + [sep] + b == [sep] + b;
      assert ([sep] + b)[1..] == b;
    } else {
      assert (a + [sep] + b)[1..] == a[1..] + [sep] + b;
      SplitTwo(a[1..], b, sep);
      assert [a[0]] + a[1..] == a;
    }
  }

  // ---------------------------------------------------------------------
  // Decimal formatting (JavaScript's String(n) and template literals for integers)

  function NatToDecimal(n: nat): (r: string)
    ensures |r| >= 1
    ensures forall i :: 0 <= i < |r| ==> IsAsciiDigit(r[i])
    ensures r[0] == '0' ==> n == 0
  {
    if n < 10 then [('0' as int + n) as char]
    else NatToDecimal(n / 10) + [('0' as int + n % 10) as char]
  }

  function IntToDecimal(n: int): string {
    if n < 0 then ['-'] + NatToDecimal(-n) else NatToDecimal(n)
  }

  /** The value of a string of decimal digits, most significant first. */
  function DigitsValue(s: string): nat
    requires forall i :: 0 <= i < |s| ==> IsAsciiDigit(s[i])
  {
    if s == [] then 0 else DigitsValue(s[..|s| - 1]) * 10 + DigitValue(s[|s| - 1])
  }

  /** Reading back a formatted natural gives the natural. */
  lemma {:induction false} NatToDecimalRoundTrip(n: nat)
    ensures DigitsValue(NatToDecimal(n)) == n
  {
    if n >= 10 {
      NatToDecimalRoundTrip(n / 10);
      var r := NatToDecimal(n);
      assert r[..|r| - 1] == NatToDecimal(n / 10);
    }
  }

  /** Different integers are formatted differently. */
  lemma IntToDecimalInjective(m: int, n: int)
    requires IntToDecimal(m) == IntToDecimal(n)
    ensures m == n
  {
    if m < 0 && n < 0 {
      assert NatToDecimal(-m) == IntToDecimal(m)[1..];
      assert NatToDecimal(-n) == IntToDecimal(n)[1..];
      NatToDecimalRoundTrip(-m);
      NatToDecimalRoundTrip(-n);
    } else if m >= 0 && n >= 0 {
      NatToDecimalRoundTrip(m);
      NatToDecimalRoundTrip(n);
    }
  }
}
