/**
 * The .NET string operations the OBJ loader applies to each line and face corner:
 * String.Trim, String.Replace("  ", " "), String.Split(char), String.IndexOf(' ')
 * with String.Remove, String.Contains, and Int32.Parse / Int32.ToString in the
 * invariant culture.
 */
module ObjText {
  import opened Wrappers
  import opened Int32
  import opened FirstSeen

  /** Char.IsWhiteSpace: the Unicode White_Space characters. */
  predicate IsWhiteSpace(c: char) {
    || ('\t' <= c <= '\r') || c == ' ' || c == '\U{0085}' || c == '\U{00A0}' || c == '\U{1680}'
    || ('\U{2000}' <= c <= '\U{200A}') || c == '\U{2028}' || c == '\U{2029}'
    || c == '\U{202F}' || c == '\U{205F}' || c == '\U{3000}'
  }

  /** The white space NumberStyles.Integer lets Int32.Parse skip: U+0009 to U+000D and U+0020. */
  predicate IsNumberWhite(c: char) {
    ('\t' <= c <= '\r') || c == ' '
  }

  /** Drops the leading characters that satisfy `drop`. */
  function TrimStartBy(s: string, drop: char -> bool): (r: string)
    ensures |r| <= |s| && r == s[|s| - |r|..]
    ensures forall i | 0 <= i < |s| - |r| :: drop(s[i])
    ensures r == [] || !drop(r[0])
  {
    if |s| > 0 && drop(s[0]) then
      var r := TrimStartBy(s[1..], drop);
      assert forall i | 1 <= i < |s| - |r| :: s[i] == s[1..][i - 1];
      r
    else s
  }

  /** Drops the trailing characters that satisfy `drop`. */
  function TrimEndBy(s: string, drop: char -> bool): (r: string)
    ensures |r| <= |s| && r == s[..|r|]
    ensures forall i | |r| <= i < |s| :: drop(s[i])
    ensures r == [] || !drop(r[|r| - 1])
  {
    if |s| > 0 && drop(s[|s| - 1]) then TrimEndBy(s[..|s| - 1], drop) else s
  }

  function TrimBy(s: string, drop: char -> bool): string {
    TrimEndBy(TrimStartBy(s, drop), drop)
  }

  /** String.Trim(). */
  function Trim(s: string): string {
    TrimBy(s, IsWhiteSpace)
  }

  /** A string that starts and ends with a kept character is its own trim. */
  lemma TrimByKeeps(s: string, drop: char -> bool)
    requires |s| > 0 && !drop(s[0]) && !drop(s[|s| - 1])
    ensures TrimBy(s, drop) == s
  {
  }

  /** True when `s` holds `c` twice in a row (String.Contains of a two-character string). */
  predicate HasPair(s: string, c: char) {
    |s| >= 2 && ((s[0] == c && s[1] == c) || HasPair(s[1..], c))
  }

  /** A pair in a concatenation lies in one part or straddles the join. */
  lemma {:induction false} PairAppend(x: string, y: string, c: char)
    ensures HasPair(x + y, c)
            <==> HasPair(x, c) || HasPair(y, c) || (|x| > 0 && |y| > 0 && x[|x| - 1] == c && y[0] == c)
    decreases |x|
  {
    if |x| == 0 {
      assert x + y == y;
    } else {
      assert (x + y)[1..] == x[1..] + y;
      PairAppend(x[1..], y, c);
      if |x| == 1 {
        assert x[1..] + y == y;
      }
    }
  }

  function NonSpaces(s: string): string {
    if |s| == 0 then "" else (if s[0] == ' ' then "" else [s[0]]) + NonSpaces(s[1..])
  }

  /**
   * String.Replace("  ", " "): every non-overlapping pair of spaces, scanning left to
   * right, becomes one space. Three spaces in a row therefore still leave two.
   */
  function ReplaceDoubleSpace(s: string): (r: string)
    ensures |r| <= |s|
  {
    if |s| >= 2 && s[0] == ' ' && s[1] == ' ' then " " + ReplaceDoubleSpace(s[2..])
    else if |s| == 0 then ""
    else [s[0]] + ReplaceDoubleSpace(s[1..])
  }

  /** The replacement never touches a character other than a space. */
  lemma {:induction false} ReplaceKeepsNonSpaces(s: string)
    ensures NonSpaces(ReplaceDoubleSpace(s)) == NonSpaces(s)
    decreases |s|
  {
    if |s| >= 2 && s[0] == ' ' && s[1] == ' ' {
      ReplaceKeepsNonSpaces(s[2..]);
      assert s[1..][1..] == s[2..];
      assert (" " + ReplaceDoubleSpace(s[2..]))[1..] == ReplaceDoubleSpace(s[2..]);
    } else if |s| > 0 {
      ReplaceKeepsNonSpaces(s[1..]);
      assert ([s[0]] + ReplaceDoubleSpace(s[1..]))[1..] == ReplaceDoubleSpace(s[1..]);
    }
  }

  /** The text comes back unchanged exactly when it holds no two adjacent spaces. */
  lemma {:induction false} ReplaceIdentity(s: string)
    ensures ReplaceDoubleSpace(s) == s <==> !HasPair(s, ' ')
    decreases |s|
  {
    if |s| >= 2 && s[0] == ' ' && s[1] == ' ' {
      assert |ReplaceDoubleSpace(s)| < |s|;
    } else if |s| > 0 {
      ReplaceIdentity(s[1..]);
      var r := ReplaceDoubleSpace(s);
      assert r == [s[0]] + ReplaceDoubleSpace(s[1..]);
      if r == s {
        assert r[1..] == ReplaceDoubleSpace(s[1..]);
      }
    }
  }

  function Spaces(n: nat): string {
    seq(n, _ => ' ')
  }

  /** One step of Replace("  ", " ") on a character that does not start a pair of spaces. */
  lemma ReplaceKeepStep(s: string)
    requires |s| > 0 && !(|s| >= 2 && s[0] == ' ' && s[1] == ' ')
    ensures ReplaceDoubleSpace(s) == [s[0]] + ReplaceDoubleSpace(s[1..])
  {
  }

  /** One step of Replace("  ", " ") on a leading pair of spaces. */
  lemma ReplacePairStep(s: string)
    requires |s| >= 2 && s[0] == ' ' && s[1] == ' '
    ensures ReplaceDoubleSpace(s) == " " + ReplaceDoubleSpace(s[2..])
  {
  }

  /** One pass of Replace("  ", " ") turns a maximal run of n spaces into (n + 1) / 2. */
  lemma {:induction false} ReplaceSpaceRun(n: nat, rest: string)
    requires rest == [] || rest[0] != ' '
    ensures ReplaceDoubleSpace(Spaces(n) + rest) == Spaces((n + 1) / 2) + ReplaceDoubleSpace(rest)
    decreases n
  {
    var s := Spaces(n) + rest;
    if n >= 2 {
      assert s[0] == ' ' && s[1] == ' ';
      assert s[2..] == Spaces(n - 2) + rest;
      ReplacePairStep(s);
      ReplaceSpaceRun(n - 2, rest);
      assert Spaces((n + 1) / 2) == " " + Spaces((n - 1) / 2);
    } else if n == 1 {
      assert s == " " + rest;
      ReplaceKeepStep(s);
      assert s[1..] == rest;
    } else {
      assert s == rest;
    }
  }

  /** Text without spaces passes through Replace("  ", " ") unchanged. */
  lemma {:induction false} ReplaceNoSpacePrefix(a: string, rest: string)
    requires ' ' !in a
    ensures ReplaceDoubleSpace(a + rest) == a + ReplaceDoubleSpace(rest)
    decreases |a|
  {
    if |a| == 0 {
      assert a + rest == rest;
    } else {
      var s := a + rest;
      var t := a[1..] + rest;
      assert s[0] == a[0] && s[1..] == t;
      ReplaceKeepStep(s);
      ReplaceNoSpacePrefix(a[1..], rest);
      assert a == [a[0]] + a[1..];
    }
  }

  /** Three spaces between two words leave two, so the split has an empty piece between them. */
  lemma ThreeSpacesEmptyPiece(a: string, b: string)
    requires ' ' !in a && ' ' !in b && |b| > 0 && b[0] != ' '
    ensures Split(ReplaceDoubleSpace(a + "   " + b), ' ') == [a, "", b]
  {
    assert a + "   " + b == a + (Spaces(3) + b);
    ReplaceNoSpacePrefix(a, Spaces(3) + b);
    ReplaceSpaceRun(3, b);
    ReplaceNoSpacePrefix(b, "");
    assert b + "" == b;
    assert ReplaceDoubleSpace(a + "   " + b) == a + [' '] + ("" + [' '] + b);
    SplitAfter(a, ' ', "" + [' '] + b);
    SplitAfter("", ' ', b);
    SplitNone(b, ' ');
  }

  function CountChar(s: string, c: char): (n: nat)
    ensures n <= |s|
    ensures n > 0 <==> c in s
  {
    if |s| == 0 then 0 else (if s[0] == c then 1 else 0) + CountChar(s[1..], c)
  }

  lemma {:induction false} CountCharAppend(a: string, b: string, c: char)
    ensures CountChar(a + b, c) == CountChar(a, c) + CountChar(b, c)
  {
    if |a| > 0 {
      assert (a + b)[1..] == a[1..] + b;
      CountCharAppend(a[1..], b, c);
    } else {
      assert a + b == b;
    }
  }

  /** The inverse of Split: the pieces with `sep` between consecutive ones. */
  function Join(pieces: seq<string>, sep: char): string
    requires |pieces| >= 1
  {
    if |pieces| == 1 then pieces[0] else pieces[0] + [sep] + Join(pieces[1..], sep)
  }

  /** String.Split(sep): the pieces between separators, always at least one. */
  function Split(s: string, sep: char): (r: seq<string>)
    ensures |r| >= 1
  {
    if |s| == 0 then [""]
    else
      var rest := Split(s[1..], sep);
      if s[0] == sep then [""] + rest else [[s[0]] + rest[0]] + rest[1..]
  }

  /** There is one more piece than there are separators. */
  lemma {:induction false} SplitCount(s: string, sep: char)
    ensures |Split(s, sep)| == CountChar(s, sep) + 1
  {
    if |s| > 0 {
      SplitCount(s[1..], sep);
    }
  }

  /** No piece holds a separator. */
  lemma {:induction false} SplitPieces(s: string, sep: char)
    ensures forall p | p in Split(s, sep) :: sep !in p
  {
    if |s| > 0 {
      SplitPieces(s[1..], sep);
    }
  }

  /** Joining the pieces with the separator gives back the string. */
  lemma {:induction false} JoinSplit(s: string, sep: char)
    ensures Join(Split(s, sep), sep) == s
  {
    if |s| > 0 {
      JoinSplit(s[1..], sep);
      var rest := Split(s[1..], sep);
      if s[0] == sep {
        JoinEmptyFirst(rest, sep);
      } else {
        JoinCons(rest, s[0], sep);
      }
      assert s == [s[0]] + s[1..];
    }
  }

  /** An empty first piece contributes only its separator. */
  lemma JoinEmptyFirst(rest: seq<string>, sep: char)
    requires |rest| >= 1
    ensures Join([""] + rest, sep) == [sep] + Join(rest, sep)
  {
    assert ([""] + rest)[1..] == rest;
  }

  /** A character put before the first piece comes first in the joined string. */
  lemma JoinCons(p: seq<string>, c: char, sep: char)
    requires |p| >= 1
    ensures Join([[c] + p[0]] + p[1..], sep) == [c] + Join(p, sep)
  {
    var r := [[c] + p[0]] + p[1..];
    if |p| > 1 {
      assert r[1..] == p[1..];
      assert Join(r, sep) == ([c] + p[0]) + [sep] + Join(p[1..], sep);
      assert Join(p, sep) == p[0] + [sep] + Join(p[1..], sep);
    }
  }

  /** Splitting at a separator after a separator-free prefix. */
  lemma {:induction false} SplitAfter(a: string, sep: char, b: string)
    requires sep !in a
    ensures Split(a + [sep] + b, sep) == [a] + Split(b, sep)
  {
    var s := a + [sep] + b;
    if |a| > 0 {
      assert s[0] == a[0] && s[0] != sep;
      assert s[1..] == a[1..] + [sep] + b;
      SplitAfter(a[1..], sep, b);
      var rest := Split(s[1..], sep);
      assert rest == [a[1..]] + Split(b, sep);
      assert Split(s, sep) == [[s[0]] + rest[0]] + rest[1..];
      assert [s[0]] + rest[0] == a;
      assert rest[1..] == Split(b, sep);
      assert [[s[0]] + rest[0]] + rest[1..] == [a] + Split(b, sep);
    } else {
      assert s[0] == sep;
      assert s[1..] == b;
    }
  }

  /** A piece without separators splits into itself. */
  lemma {:induction false} SplitNone(a: string, sep: char)
    requires sep !in a
    ensures Split(a, sep) == [a]
  {
    if |a| > 0 {
      SplitNone(a[1..], sep);
      assert [a[0]] + a[1..] == a;
      assert [a[1..]][1..] == [];
    }
  }

  /** The first piece of a split is everything before the first separator. */
  lemma {:induction false} SplitFirst(s: string, sep: char)
    ensures Split(s, sep)[0] == s[..IndexOf(s, sep)]
  {
    if |s| > 0 && s[0] != sep {
      SplitFirst(s[1..], sep);
    }
  }

  /**
   * `l.Remove(0, l.IndexOf(' ') + 1)`: what follows the first space, or all of `l`
   * when it has none (IndexOf then returns -1).
   */
  function AfterFirstSpace(l: string): (data: string)
    ensures ' ' !in l ==> data == l
    ensures ' ' in l ==> l == Split(l, ' ')[0] + " " + data
  {
    var cut := if ' ' in l then IndexOf(l, ' ') + 1 else 0;
    SplitFirst(l, ' ');
    assert ' ' in l ==> l == l[..cut - 1] + " " + l[cut..];
    l[cut..]
  }

  predicate IsDigit(c: char) {
    '0' <= c <= '9'
  }

  predicate AllDigits(s: string) {
    forall i | 0 <= i < |s| :: IsDigit(s[i])
  }

  /** The number a string of decimal digits denotes. */
  function DigitsValue(d: string): nat
    requires AllDigits(d)
  {
    if |d| == 0 then 0 else 10 * DigitsValue(d[..|d| - 1]) + (d[|d| - 1] as int - '0' as int)
  }

  /**
   * Int32.Parse(string) with NumberStyles.Integer in the invariant culture: optional
   * surrounding white space, an optional sign, one or more decimal digits. None stands
   * for the FormatException (not a number) and the OverflowException (outside int32).
   */
  function ParseInt32(s: string): (r: Option<int>)
    ensures r.Some? ==> IsInt32(r.value)
  {
    var t := TrimBy(s, IsNumberWhite);
    var signed := |t| > 0 && (t[0] == '-' || t[0] == '+');
    var digits := if signed then t[1..] else t;
    if |digits| == 0 || !AllDigits(digits) then None
    else
      var v: int := if signed && t[0] == '-' then 0 - (DigitsValue(digits) as int) else DigitsValue(digits);
      if IsInt32(v) then Some(v) else None
  }

  function DigitChar(d: int): char
    requires 0 <= d < 10
  {
    ('0' as int + d) as char
  }

  /** Decimal digits of a natural number, without leading zeros. */
  function ShowNat(n: nat): (r: string)
    ensures |r| > 0 && AllDigits(r)
    ensures DigitsValue(r) == n
  {
    if n < 10 then [DigitChar(n)]
    else
      var init := ShowNat(n / 10);
      var r := init + [DigitChar(n % 10)];
      assert r[..|r| - 1] == init;
      r
  }

  /** Int32.ToString() in the invariant culture. */
  function ShowInt(i: int): (r: string)
    ensures |r| > 0
    ensures forall c | c in r :: IsDigit(c) || c == '-'
    ensures IsDigit(r[|r| - 1])
  {
    if i < 0 then "-" + ShowNat(-i) else ShowNat(i)
  }

  /** Leading characters that are all dropped, before a kept one, are exactly what TrimStart removes. */
  lemma TrimStartPad(w: string, x: string, drop: char -> bool)
    requires forall i | 0 <= i < |w| :: drop(w[i])
    requires |x| > 0 && !drop(x[0])
    ensures TrimStartBy(w + x, drop) == x
  {
    var s := w + x;
    var r := TrimStartBy(s, drop);
    assert s[|w|] == x[0];
    assert forall i | 0 <= i < |w| :: s[i] == w[i];
    assert |s| - |r| == |w|;
    assert s[|w|..] == x;
  }

  /** Trailing characters that are all dropped, after a kept one, are exactly what TrimEnd removes. */
  lemma TrimEndPad(x: string, w: string, drop: char -> bool)
    requires forall i | 0 <= i < |w| :: drop(w[i])
    requires |x| > 0 && !drop(x[|x| - 1])
    ensures TrimEndBy(x + w, drop) == x
  {
    var s := x + w;
    var r := TrimEndBy(s, drop);
    assert s[|x| - 1] == x[|x| - 1];
    assert forall i | |x| <= i < |s| :: s[i] == w[i - |x|];
    assert |r| == |x|;
    assert s[..|x|] == x;
  }

  lemma AppendRegroup(a: string, b: string, c: string, d: string)
    ensures a + b + c + d == a + (b + c) + d
  {
  }

  /** Trimming removes exactly the white space padding around a word that neither starts nor ends with it. */
  lemma TrimPadded(w1: string, x: string, w2: string)
    requires forall i | 0 <= i < |w1| :: IsNumberWhite(w1[i])
    requires forall i | 0 <= i < |w2| :: IsNumberWhite(w2[i])
    requires |x| > 0 && !IsNumberWhite(x[0]) && !IsNumberWhite(x[|x| - 1])
    ensures TrimBy(w1 + x + w2, IsNumberWhite) == x
  {
    assert w1 + x + w2 == w1 + (x + w2);
    assert (x + w2)[0] == x[0];
    TrimStartPad(w1, x + w2, IsNumberWhite);
    TrimEndPad(x, w2, IsNumberWhite);
  }

  /** What Int32.Parse makes of a sign and digits once the padding is trimmed. */
  lemma ParseSignDigits(s: string, sign: string, d: string)
    requires sign == "" || sign == "+" || sign == "-"
    requires |d| > 0 && AllDigits(d)
    requires TrimBy(s, IsNumberWhite) == sign + d
    ensures var v := if sign == "-" then 0 - (DigitsValue(d) as int) else DigitsValue(d) as int;
      ParseInt32(s) == if IsInt32(v) then Some(v) else None
  {
    var t := TrimBy(s, IsNumberWhite);
    var n := DigitsValue(d) as int;
    if sign == "-" {
      assert t[0] == '-' && t[1..] == d;
      assert ParseInt32(s) == if IsInt32(0 - n) then Some(0 - n) else None;
    } else if sign == "+" {
      assert t[0] == '+' && t[1..] == d;
      assert ParseInt32(s) == if IsInt32(n) then Some(n) else None;
    } else {
      assert t == d && IsDigit(t[0]);
      assert ParseInt32(s) == if IsInt32(n) then Some(n) else None;
    }
  }

  /**
   * Int32.Parse of an optional sign and decimal digits, with surrounding white space:
   * the value they denote when it fits in 32 bits, an OverflowException otherwise.
   * Leading zeros are allowed.
   */
  lemma ParseDigits(w1: string, sign: string, d: string, w2: string)
    requires forall i | 0 <= i < |w1| :: IsNumberWhite(w1[i])
    requires forall i | 0 <= i < |w2| :: IsNumberWhite(w2[i])
    requires sign == "" || sign == "+" || sign == "-"
    requires |d| > 0 && AllDigits(d)
    ensures var v := if sign == "-" then 0 - (DigitsValue(d) as int) else DigitsValue(d) as int;
      ParseInt32(w1 + sign + d + w2) == if IsInt32(v) then Some(v) else None
  {
    var x := sign + d;
    AppendRegroup(w1, sign, d, w2);
    assert x[0] == if sign == "" then d[0] else sign[0];
    assert IsDigit(d[0]) && IsDigit(d[|d| - 1]);
    assert x[|x| - 1] == d[|d| - 1];
    TrimPadded(w1, x, w2);
    ParseSignDigits(w1 + sign + d + w2, sign, d);
  }

  /** Int32.Parse reads back what Int32.ToString writes. */
  lemma ParseShowInt(i: int)
    requires IsInt32(i)
    ensures ParseInt32(ShowInt(i)) == Some(i)
  {
    var s := ShowInt(i);
    TrimByKeeps(s, IsNumberWhite);
    if i < 0 {
      assert s[1..] == ShowNat(-i);
    }
  }
}
