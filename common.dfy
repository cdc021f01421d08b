/** Values shared by every part of the model: optional values, order-preserving
    filtering, and the few pieces of JavaScript string behaviour the pages rely
    on (whitespace, `trim`, ASCII `toLowerCase`, `includes`, `String(n)`,
    `Number.parseInt` and `split`). */
module Common {

  /** A JSON field that may be absent (`undefined`/`null`) or present. */
  datatype Option<T> = None | Some(value: T)

  /** `x || 0` on a numeric field that may be missing. */
  function OrZero(o: Option<int>): int
  {
    match o
    case None => 0
    case Some(n) => n
  }

  /** The `{ success, message }` answer of an operation that returns nothing else. */
  datatype Outcome = Done | Failed(message: string)

  function Max(a: int, b: int): int
  {
    if a >= b then a else b
  }

  // ---------------------------------------------------------------------------
  // Sequences
  // ---------------------------------------------------------------------------

  /** `r` can be obtained from `s` by deleting elements (order is kept). */
  predicate IsSubsequence<T(==)>(r: seq<T>, s: seq<T>)
    decreases |s|
  {
    if r == [] then true
    else if s == [] then false
    else if r[0] == s[0] then IsSubsequence(r[1..], s[1..])
    else IsSubsequence(r, s[1..])
  }

  /** `Array.prototype.filter`: the elements of `s` that satisfy `p`, in order. */
  function Filter<T(!new)>(s: seq<T>, p: T -> bool): (r: seq<T>)
    ensures |r| <= |s|
    ensures forall x :: x in r <==> x in s && p(x)
    ensures IsSubsequence(r, s)
    ensures (forall i :: 0 <= i < |s| ==> p(s[i])) ==> r == s
  {
    if s == [] then []
    else if p(s[0]) then [s[0]] + Filter(s[1..], p)
    else Filter(s[1..], p)
  }

  /** The number of elements that satisfy `p` (`s.filter(p).length`). */
  function Count<T(!new)>(s: seq<T>, p: T -> bool): (n: nat)
    ensures n <= |s|
  {
    |Filter(s, p)|
  }

  lemma CountCons<T(!new)>(s: seq<T>, p: T -> bool)
    requires s != []
    ensures Count(s, p) == (if p(s[0]) then 1 else 0) + Count(s[1..], p)
  {
  }

  lemma {:induction false} FilterAppend<T(!new)>(a: seq<T>, b: seq<T>, p: T -> bool)
    ensures Filter(a + b, p) == Filter(a, p) + Filter(b, p)
  {
    if a == [] {
      assert a + b == b;
    } else {
      assert (a + b)[1..] == a[1..] + b;
      FilterAppend(a[1..], b, p);
    }
  }

  /** The first element of a filter is the first element of `s` that satisfies `p`. */
  lemma {:induction false} FilterHead<T(!new)>(s: seq<T>, p: T -> bool) returns (i: nat)
    requires Filter(s, p) != []
    ensures i < |s| && s[i] == Filter(s, p)[0] && p(s[i])
    ensures forall k :: 0 <= k < i ==> !p(s[k])
  {
    if p(s[0]) {
      i := 0;
    } else {
      var j := FilterHead(s[1..], p);
      i := j + 1;
      assert s[i] == s[1..][j];
      forall k | 0 <= k < i ensures !p(s[k]) {
        if k > 0 { assert s[k] == s[1..][k - 1]; }
      }
    }
  }

  /** The filter is empty exactly when no element satisfies the predicate. */
  lemma FilterEmpty<T(!new)>(s: seq<T>, p: T -> bool)
    ensures Filter(s, p) == [] <==> forall i :: 0 <= i < |s| ==> !p(s[i])
  {
    var f := Filter(s, p);
    assert f != [] ==> f[0] in s;
    forall i | 0 <= i < |s| && p(s[i]) ensures f != [] {
      assert s[i] in f;
    }
  }

  /** Filtering twice with the same predicate changes nothing more. */
  lemma {:induction false} FilterIdempotent<T(!new)>(s: seq<T>, p: T -> bool)
    ensures Filter(Filter(s, p), p) == Filter(s, p)
  {
    if s != [] {
      FilterIdempotent(s[1..], p);
    }
  }

  /** Filters with predicates that agree on every element give the same result. */
  lemma {:induction false} FilterCongruent<T(!new)>(s: seq<T>, p: T -> bool, q: T -> bool)
    requires forall i :: 0 <= i < |s| ==> p(s[i]) == q(s[i])
    ensures Filter(s, p) == Filter(s, q)
  {
    if s != [] {
      FilterCongruent(s[1..], p, q);
    }
  }

  /** Three disjoint predicates split a sequence into at most its length. */
  lemma {:induction false} CountDisjoint3<T(!new)>(s: seq<T>, p: T -> bool, q: T -> bool, u: T -> bool)
    requires forall i :: 0 <= i < |s| ==> !(p(s[i]) && q(s[i])) && !(p(s[i]) && u(s[i])) && !(q(s[i]) && u(s[i]))
    ensures Count(s, p) + Count(s, q) + Count(s, u) <= |s|
    ensures (forall i :: 0 <= i < |s| ==> p(s[i]) || q(s[i]) || u(s[i])) ==>
              Count(s, p) + Count(s, q) + Count(s, u) == |s|
  {
    if s != [] {
      CountDisjoint3(s[1..], p, q, u);
    }
  }

  // ---------------------------------------------------------------------------
  // Characters and strings
  // ---------------------------------------------------------------------------

  /** The characters JavaScript's `\s` and `String.prototype.trim` treat as white space. */
  predicate IsJsSpace(c: char)
  {
    var n := c as int;
    (9 <= n <= 13) || n == 32 || n == 0xA0 || n == 0x1680 || (0x2000 <= n <= 0x200A) ||
    n == 0x2028 || n == 0x2029 || n == 0x202F || n == 0x205F || n == 0x3000 || n == 0xFEFF
  }

  predicate IsBlank(s: string)
  {
    forall i :: 0 <= i < |s| ==> IsJsSpace(s[i])
  }

  function TrimStart(s: string): (r: string)
    ensures |r| <= |s| && r == s[|s| - |r|..]
    ensures r == [] || !IsJsSpace(r[0])
    ensures IsBlank(s[..|s| - |r|])
  {
    if s != [] && IsJsSpace(s[0]) then TrimStart(s[1..]) else s
  }

  function TrimEnd(s: string): (r: string)
    ensures |r| <= |s| && r == s[..|r|]
    ensures r == [] || !IsJsSpace(r[|r| - 1])
    ensures IsBlank(s[|r|..])
  {
    if s != [] && IsJsSpace(s[|s| - 1]) then TrimEnd(s[..|s| - 1]) else s
  }

  /** `String.prototype.trim`. */
  function Trim(s: string): string
  {
    TrimEnd(TrimStart(s))
  }

  /** `!s.trim()` holds exactly for strings made only of white space. */
  lemma TrimEmptyIffBlank(s: string)
    ensures Trim(s) == [] <==> IsBlank(s)
  {
    var t := TrimStart(s);
    if Trim(s) == [] {
      assert t == [];
      forall i | 0 <= i < |s| ensures IsJsSpace(s[i]) {
        assert s[i] == s[..|s| - |t|][i];
      }
    }
  }

  function LowerChar(c: char): char
  {
    if 'A' <= c <= 'Z' then (c as int + 32) as char else c
  }

  /** `toLowerCase` on the ASCII letters; every other character is kept. */
  function Lower(s: string): (r: string)
    ensures |r| == |s|
    ensures forall i :: 0 <= i < |s| ==> r[i] == LowerChar(s[i])
  {
    seq(|s|, i requires 0 <= i < |s| => LowerChar(s[i]))
  }

  /** `s.includes(t)`. */
  predicate Includes(s: string, t: string)
  {
    exists i | 0 <= i <= |s| - |t| :: InfixAt(s, t, i)
  }

  predicate InfixAt(s: string, t: string, i: int)
  {
    0 <= i <= |s| - |t| && s[i..i + |t|] == t
  }

  /** `s.toLowerCase().includes(t.toLowerCase())`. */
  predicate IncludesIgnoringCase(s: string, t: string)
  {
    Includes(Lower(s), Lower(t))
  }

  lemma IncludesEmpty(s: string)
    ensures IncludesIgnoringCase(s, "")
  {
    assert InfixAt(Lower(s), Lower(""), 0);
  }

  // ---------------------------------------------------------------------------
  // Numbers as text
  // ---------------------------------------------------------------------------

  predicate IsDigit(c: char)
  {
    '0' <= c <= '9'
  }

  function DigitChar(d: nat): char
    requires d < 10
  {
    ('0' as int + d) as char
  }

  function DigitValue(c: char): nat
    requires IsDigit(c)
  {
    c as int - '0' as int
  }

  /** The decimal digits of `n`, most significant first, without leading zeros. */
  function Digits(n: nat): (r: string)
    ensures r != [] && forall i :: 0 <= i < |r| ==> IsDigit(r[i])
    ensures n >= 10 ==> r[0] != '0'
  {
    if n < 10 then [DigitChar(n)] else Digits(n / 10) + [DigitChar(n % 10)]
  }

  /** `String(n)` (and the text of `${n}` in a template) for an integer `n`. */
  function Decimal(n: int): string
  {
    if n < 0 then "-" + Digits(-n) else Digits(n)
  }

  /** The value of a non-empty run of decimal digits. */
  function DigitsValue(s: string): nat
    requires forall i :: 0 <= i < |s| ==> IsDigit(s[i])
  {
    if s == [] then 0 else DigitsValue(s[..|s| - 1]) * 10 + DigitValue(s[|s| - 1])
  }

  /** The longest prefix of `s` made of digits. */
  function DigitPrefix(s: string): (r: string)
    ensures |r| <= |s| && r == s[..|r|]
    ensures forall i :: 0 <= i < |r| ==> IsDigit(r[i])
    ensures |r| < |s| ==> !IsDigit(s[|r|])
  {
    if s != [] && IsDigit(s[0]) then [s[0]] + DigitPrefix(s[1..]) else []
  }

  /** `Number.parseInt(s)` for decimal input: leading white space, an optional
      sign, then the longest run of digits; `None` stands for `NaN`. */
  function ParseInt(s: string): Option<int>
  {
    var t := TrimStart(s);
    var neg := t != [] && t[0] == '-';
    var body := if t != [] && (t[0] == '-' || t[0] == '+') then t[1..] else t;
    var ds := DigitPrefix(body);
    if ds == [] then None
    else
      var v: int := DigitsValue(ds);
      Some(if neg then -v else v)
  }

  lemma {:induction false} DigitsRoundTrip(n: nat)
    ensures DigitsValue(Digits(n)) == n
  {
    if n >= 10 {
      DigitsRoundTrip(n / 10);
      var d := Digits(n / 10) + [DigitChar(n % 10)];
      assert d[..|d| - 1] == Digits(n / 10);
    }
  }

  lemma DigitPrefixOfDigits(s: string)
    requires forall i :: 0 <= i < |s| ==> IsDigit(s[i])
    ensures DigitPrefix(s) == s
  {
  }

  /** Reading back the decimal text of an integer gives the integer
      (`Number.parseInt(String(n)) === n`). */
  lemma ParseDecimal(n: int)
    ensures ParseInt(Decimal(n)) == Some(n)
  {
    var s := Decimal(n);
    var ds := Digits(if n < 0 then -n else n);
    assert s != [] && !IsJsSpace(s[0]) by {
      if n < 0 { assert s[0] == '-'; } else { assert IsDigit(ds[0]); }
    }
    assert TrimStart(s) == s;
    if n < 0 {
      assert s[1..] == ds;
    } else {
      assert s[0] != '-' && s[0] != '+' by { assert IsDigit(ds[0]); }
    }
    DigitPrefixOfDigits(ds);
    DigitsRoundTrip(if n < 0 then -n else n);
  }

  // ---------------------------------------------------------------------------
  // Splitting text
  // ---------------------------------------------------------------------------

  /** `s.split(sep)` for a one-character separator. */
  function Split(s: string, sep: char): (r: seq<string>)
    ensures |r| >= 1
  {
    if s == [] then [[]]
    else
      var rest := Split(s[1..], sep);
      if s[0] == sep then [[]] + rest else [[s[0]] + rest[0]] + rest[1..]
  }

  /** `pieces.join(sep)`. */
  function Join(pieces: seq<string>, sep: char): string
  {
    if pieces == [] then []
    else if |pieces| == 1 then pieces[0]
    else pieces[0] + [sep] + Join(pieces[1..], sep)
  }

  function Occurrences(s: string, c: char): nat
  {
    if s == [] then 0 else (if s[0] == c then 1 else 0) + Occurrences(s[1..], c)
  }

  /** There is one more piece than there are separators. */
  lemma {:induction false} SplitLength(s: string, sep: char)
    ensures |Split(s, sep)| == Occurrences(s, sep) + 1
  {
    if s != [] {
      SplitLength(s[1..], sep);
    }
  }

  /** No piece holds the separator. */
  lemma {:induction false} SplitPiecesFree(s: string, sep: char)
    ensures forall k :: 0 <= k < |Split(s, sep)| ==> sep !in Split(s, sep)[k]
  {
    if s != [] {
      SplitPiecesFree(s[1..], sep);
      var rest := Split(s[1..], sep);
      if s[0] != sep {
        assert sep !in rest[0];
        forall k | 0 <= k < |Split(s, sep)| ensures sep !in Split(s, sep)[k] {
          if k > 0 { assert Split(s, sep)[k] == rest[k]; }
        }
      }
    }
  }

  /** Joining the pieces with the separator gives back the text. */
  lemma {:induction false} SplitJoin(s: string, sep: char)
    ensures Join(Split(s, sep), sep) == s
  {
    if s != [] {
      SplitJoin(s[1..], sep);
      var rest := Split(s[1..], sep);
      if s[0] == sep {
        assert Split(s, sep)[1..] == rest;
      } else {
        var r := Split(s, sep);
        assert r[0] == [s[0]] + rest[0];
        if |rest| == 1 {
          assert s == [s[0]] + s[1..];
        } else {
          assert r[1..] == rest[1..];
          assert Join(rest, sep) == rest[0] + [sep] + Join(rest[1..], sep);
        }
      }
    }
  }

  /** Text without the separator is a single piece. */
  lemma {:induction false} SplitNone(s: string, sep: char)
    requires sep !in s
    ensures Split(s, sep) == [s]
  {
    if s != [] {
      SplitNone(s[1..], sep);
      assert [s[0]] + s[1..] == s;
    }
  }

  /** Two separator-free pieces joined by the separator split back into them. */
  lemma {:induction false} SplitOnce(a: string, b: string, sep: char)
    requires sep !in a && sep !in b
    ensures Split(a + [sep] + b, sep) == [a, b]
  {
    var s := a + [sep] + b;
    if a == [] {
      assert s[1..] == b;
      SplitNone(b, sep);
    } else {
      assert s[1..] == a[1..] + [sep] + b;
      SplitOnce(a[1..], b, sep);
      assert [a[0]] + a[1..] == a;
    }
  }
}
