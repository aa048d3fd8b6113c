/** The handful of JavaScript built-ins the hotel platform leans on, stated as
    total functions over Dafny values: optional values, parsed query numbers,
    `Array.prototype.slice`, `String.prototype.includes`, `toLowerCase`,
    `split`, decimal rendering with `padStart`, and the max+1 id rule. */
module JsCore {

  datatype Option<T> = None | Some(value: T)

  /** A query-string number after `parseInt`: the parameter was absent (or the
      empty string, which JavaScript treats as false), or it parsed to an
      integer, or it was present but not numeric (NaN, which compares false
      with everything). */
  datatype Param = Absent | Num(n: int) | NaN

  /** `x >= parseInt(p)` for a present parameter. */
  predicate AtLeast(x: int, p: Param)
  {
    p.Num? && x >= p.n
  }

  /** `x <= parseInt(p)` for a present parameter. */
  predicate AtMost(x: int, p: Param)
  {
    p.Num? && x <= p.n
  }

  // ---------------------------------------------------------------------------
  // Identifiers: `xs.length > 0 ? Math.max(...xs) + 1 : 1`

  function MaxOf(ids: seq<int>): (m: int)
    requires ids != []
    ensures m in ids
    ensures forall i :: i in ids ==> i <= m
  {
    if |ids| == 1 then ids[0]
    else
      var rest := MaxOf(ids[1..]);
      assert forall i :: i in ids ==> i == ids[0] || i in ids[1..];
      if ids[0] >= rest then ids[0] else rest
  }

  /** The id given to a new record: one more than the largest id in use, or 1
      when there are no records. */
  function NextId(ids: seq<int>): (r: int)
    ensures forall i :: i in ids ==> i < r
    ensures ids == [] ==> r == 1
    ensures ids != [] ==> r - 1 in ids
  {
    if ids == [] then 1 else MaxOf(ids) + 1
  }

  // ---------------------------------------------------------------------------
  // Array.prototype.filter

  /** `r` is `s` with some items left out, the rest in their original order. */
  predicate SubsequenceOf<T(==)>(r: seq<T>, s: seq<T>)
    decreases |s|
  {
    r == [] || (s != [] && ((r[0] == s[0] && SubsequenceOf(r[1..], s[1..])) || SubsequenceOf(r, s[1..])))
  }

  /** `s.filter(p)`: exactly the items satisfying `p`, in their original
      order. FilterCount adds how many copies of each survive. */
  function Filter<T(==)>(s: seq<T>, p: T -> bool): (r: seq<T>)
    ensures forall i :: 0 <= i < |r| ==> r[i] in s && p(r[i])
    ensures forall i :: 0 <= i < |s| && p(s[i]) ==> s[i] in r
    ensures |r| <= |s|
    ensures SubsequenceOf(r, s)
  {
    if s == [] then []
    else
      var rest := Filter(s[1..], p);
      assert s[1..] + [] == s[1..];
      if p(s[0]) then
        assert ([s[0]] + rest)[1..] == rest;
        [s[0]] + rest
      else rest
  }

  /** `filter` keeps every copy of an item satisfying `p` and no copy of any
      other item. */
  lemma {:induction false} FilterCount<T>(s: seq<T>, p: T -> bool, x: T)
    ensures multiset(Filter(s, p))[x] == if p(x) then multiset(s)[x] else 0
  {
    if s != [] {
      FilterCount(s[1..], p, x);
      assert s == [s[0]] + s[1..];
      if p(s[0]) {
        assert Filter(s, p) == [s[0]] + Filter(s[1..], p);
      }
    }
  }

  lemma {:induction false} SubsequenceTrans<T>(a: seq<T>, b: seq<T>, c: seq<T>)
    requires SubsequenceOf(a, b) && SubsequenceOf(b, c)
    ensures SubsequenceOf(a, c)
    decreases |c|
  {
    if a != [] {
      assert b != [] && c != [];
      if b[0] == c[0] && SubsequenceOf(b[1..], c[1..]) {
        if a[0] == b[0] && SubsequenceOf(a[1..], b[1..]) {
          SubsequenceTrans(a[1..], b[1..], c[1..]);
        } else {
          SubsequenceTrans(a, b[1..], c[1..]);
          assert SubsequenceOf(a, c[1..]);
        }
      } else {
        SubsequenceTrans(a, b, c[1..]);
      }
    }
  }

  lemma {:induction false} SubsequenceRefl<T>(s: seq<T>)
    ensures SubsequenceOf(s, s)
    decreases |s|
  {
    if s != [] {
      SubsequenceRefl(s[1..]);
    }
  }

  // ---------------------------------------------------------------------------
  // Array.prototype.slice

  /** How `slice` turns a possibly negative index into a position in
      `0 .. len`: negative indices count from the end, and both ends clamp. */
  function Clamp(i: int, len: nat): (r: nat)
    ensures r <= len
    ensures 0 <= i <= len ==> r == i
    ensures i > len ==> r == len
    ensures i < 0 ==> r == if len + i < 0 then 0 else len + i
  {
    if i < 0 then (if len + i < 0 then 0 else len + i)
    else if i > len then len
    else i
  }

  /** `s.slice(start, end)`. */
  function Slice<T>(s: seq<T>, start: int, end: int): (r: seq<T>)
    ensures |r| <= |s|
    ensures Clamp(start, |s|) < Clamp(end, |s|) ==> r == s[Clamp(start, |s|)..Clamp(end, |s|)]
    ensures Clamp(end, |s|) <= Clamp(start, |s|) ==> r == []
  {
    var a, b := Clamp(start, |s|), Clamp(end, |s|);
    if a < b then s[a..b] else []
  }

  /** `s.slice(0, n)` for a non-negative `n`: the first `n` items, or all of
      them when there are fewer. */
  lemma TakeFront<T>(s: seq<T>, n: nat)
    ensures Slice(s, 0, n) == s[..if n <= |s| then n else |s|]
  {
  }

  // ---------------------------------------------------------------------------
  // Strings

  /** `String.prototype.includes`: `sub` occurs in `s` at some position. */
  predicate Includes(s: string, sub: string)
  {
    exists i | 0 <= i <= |s| - |sub| :: OccursAt(s, sub, i)
  }

  predicate OccursAt(s: string, sub: string, i: int)
  {
    0 <= i <= |s| - |sub| && s[i..i + |sub|] == sub
  }

  /** `toLowerCase` on one character. Only the ASCII letters are mapped; the
      Unicode case tables are not part of this model. */
  function LowerChar(c: char): char
  {
    if 'A' <= c <= 'Z' then (c as int - 'A' as int + 'a' as int) as char else c
  }

  function ToLower(s: string): (r: string)
    ensures |r| == |s|
    ensures forall i :: 0 <= i < |s| ==> r[i] == LowerChar(s[i])
  {
    seq(|s|, i requires 0 <= i < |s| => LowerChar(s[i]))
  }

  /** Lower-casing is idempotent, so a keyword that is already lower case is
      left as it is. */
  lemma ToLowerIdempotent(s: string)
    ensures ToLower(ToLower(s)) == ToLower(s)
  {
  }

  /** `s.split(sep)` for a one-character separator: the pieces between
      separators, always at least one (the empty string splits to `[""]`). */
  function Split(s: string, sep: char): (r: seq<string>)
    ensures |r| >= 1
    ensures forall k :: 0 <= k < |r| ==> sep !in r[k]
    decreases |s|
  {
    if s == [] then [""]
    else
      var rest := Split(s[1..], sep);
      if s[0] == sep then [""] + rest
      else [[s[0]] + rest[0]] + rest[1..]
  }

  /** `pieces.join(sep)`. */
  function Join(pieces: seq<string>, sep: char): string
    requires |pieces| >= 1
  {
    if |pieces| == 1 then pieces[0] else pieces[0] + [sep] + Join(pieces[1..], sep)
  }

  /** Splitting loses nothing: joining the pieces again gives back the string. */
  lemma {:induction false} JoinSplit(s: string, sep: char)
    ensures Join(Split(s, sep), sep) == s
    decreases |s|
  {
    if s != [] {
      JoinSplit(s[1..], sep);
      var rest := Split(s[1..], sep);
      if s[0] != sep {
        if |rest| == 1 {
        } else {
          assert ([s[0]] + rest[0]) + [sep] + Join(rest[1..], sep)
              == [s[0]] + (rest[0] + [sep] + Join(rest[1..], sep));
        }
      }
    }
  }

  /** The first piece of `s.split(sep)` is the part of `s` before the first
      separator (all of `s` when it has none). */
  lemma {:induction false} SplitHead(s: string, sep: char)
    ensures Split(s, sep)[0] <= s
    ensures |Split(s, sep)[0]| < |s| ==> s[|Split(s, sep)[0]|] == sep
    decreases |s|
  {
    if s != [] && s[0] != sep {
      SplitHead(s[1..], sep);
    }
  }

  // ---------------------------------------------------------------------------
  // Decimal rendering: `String(n)`, `padStart(width, '0')`, and its reading back

  function DigitChar(d: nat): char
    requires d < 10
  {
    ('0' as int + d) as char
  }

  predicate IsDigit(c: char)
  {
    '0' <= c <= '9'
  }

  /** `String(n)` for a natural number: its decimal digits, no leading zero. */
  function Digits(n: nat): (r: string)
    ensures |r| >= 1
    ensures forall k :: 0 <= k < |r| ==> IsDigit(r[k])
    decreases n
  {
    if n < 10 then [DigitChar(n)] else Digits(n / 10) + [DigitChar(n % 10)]
  }

  /** `s.padStart(width, '0')`. */
  function PadStart(s: string, width: nat): (r: string)
    ensures |r| == if |s| < width then width else |s|
    ensures r[|r| - |s|..] == s
    ensures forall k :: 0 <= k < |r| - |s| ==> r[k] == '0'
  {
    if |s| < width then seq(width - |s|, _ => '0') + s else s
  }

  /** The value of a string of decimal digits. */
  function ReadDigits(s: string): nat
    requires forall k :: 0 <= k < |s| ==> IsDigit(s[k])
  {
    if s == [] then 0
    else 10 * ReadDigits(s[..|s| - 1]) + DigitValue(s[|s| - 1])
  }

  function DigitValue(c: char): nat
    requires IsDigit(c)
  {
    c as int - '0' as int
  }

  lemma {:induction false} ReadDigitsOfDigits(n: nat)
    ensures ReadDigits(Digits(n)) == n
    decreases n
  {
    if n >= 10 {
      ReadDigitsOfDigits(n / 10);
      var d := Digits(n);
      assert d[..|d| - 1] == Digits(n / 10);
    }
  }

  /** Leading zeros do not change the value read back. */
  lemma {:induction false} ReadDigitsLeadingZero(s: string)
    requires forall k :: 0 <= k < |s| ==> IsDigit(s[k])
    ensures ReadDigits(['0'] + s) == ReadDigits(s)
    decreases |s|
  {
    if s != [] {
      var t := ['0'] + s;
      assert t[..|t| - 1] == ['0'] + s[..|s| - 1];
      ReadDigitsLeadingZero(s[..|s| - 1]);
    }
  }

  lemma {:induction false} ReadDigitsZeros(z: nat, s: string)
    requires forall k :: 0 <= k < |s| ==> IsDigit(s[k])
    ensures ReadDigits(seq(z, _ => '0') + s) == ReadDigits(s)
    decreases z
  {
    if z > 0 {
      var rest := seq(z - 1, _ => '0') + s;
      assert seq(z, _ => '0') + s == ['0'] + rest;
      ReadDigitsLeadingZero(rest);
      ReadDigitsZeros(z - 1, s);
    } else {
      assert seq(z, _ => '0') + s == s;
    }
  }

  /** Zero-padding a number and reading it back gives the number. */
  lemma PaddedRoundTrip(n: nat, width: nat)
    ensures forall k :: 0 <= k < |PadStart(Digits(n), width)| ==> IsDigit(PadStart(Digits(n), width)[k])
    ensures ReadDigits(PadStart(Digits(n), width)) == n
  {
    var d := Digits(n);
    ReadDigitsOfDigits(n);
    if |d| < width {
      ReadDigitsZeros(width - |d|, d);
    }
  }

  /** A number below `10^w` has at most `w` digits. */
  lemma {:induction false} DigitsLength(n: nat, w: nat)
    requires n < Pow10(w)
    ensures |Digits(n)| <= w || (w == 0 && |Digits(n)| == 1)
    decreases n
  {
    if n >= 10 {
      assert w >= 2;
      DigitsLength(n / 10, w - 1);
    }
  }

  /** A number of at least `10^w` has more than `w` digits. */
  lemma {:induction false} DigitsLengthBelow(n: nat, w: nat)
    requires n >= Pow10(w)
    ensures |Digits(n)| > w
    decreases n
  {
    if w > 0 {
      assert n >= 10;
      DigitsLengthBelow(n / 10, w - 1);
    }
  }

  function Pow10(w: nat): (r: nat)
    ensures r >= 1
  {
    if w == 0 then 1 else 10 * Pow10(w - 1)
  }

  /** `s.length`: strings count UTF-16 code units, so a character beyond
      U+FFFF counts twice. */
  function Utf16Length(s: string): (n: nat)
    ensures |s| <= n <= 2 * |s|
    ensures (forall i :: 0 <= i < |s| ==> s[i] as int <= 0xFFFF) ==> n == |s|
  {
    if s == [] then 0
    else
      assert forall i :: 0 <= i < |s[1..]| ==> s[1..][i] == s[i + 1];
      (if s[0] as int > 0xFFFF then 2 else 1) + Utf16Length(s[1..])
  }

  /** `String(n)` where `n` may be negative. */
  function IntToString(n: int): (r: string)
    ensures |r| >= 1
  {
    if n < 0 then "-" + Digits(-n) else Digits(n)
  }

  /** Different natural numbers have different digits. */
  lemma DigitsInjective(a: nat, b: nat)
    requires Digits(a) == Digits(b)
    ensures a == b
  {
    ReadDigitsOfDigits(a);
    ReadDigitsOfDigits(b);
  }

  /** A negative number never prints like a natural one: a sign is not a
      digit. */
  lemma SignNotDigit(a: nat, b: nat)
    ensures "-" + Digits(a) != Digits(b)
  {
    assert ("-" + Digits(a))[0] == '-';
    assert IsDigit(Digits(b)[0]);
  }

  /** Different numbers print differently. */
  lemma IntToStringInjective(a: int, b: int)
    ensures IntToString(a) == IntToString(b) <==> a == b
  {
    if a < 0 && b >= 0 {
      SignNotDigit(-a, b);
    } else if a >= 0 && b < 0 {
      SignNotDigit(-b, a);
    } else if IntToString(a) == IntToString(b) {
      if a < 0 {
        assert Digits(-a) == IntToString(a)[1..];
        assert Digits(-b) == IntToString(b)[1..];
        DigitsInjective(-a, -b);
      } else {
        DigitsInjective(a, b);
      }
    }
  }
}
