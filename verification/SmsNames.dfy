/**
  Message file names (components/smsInboxService/smsInbox.c): eight hexadecimal digits and an
  extension.  Sorted as text they are sorted as numbers, which is what re-seeding the next
  identifier from the last name of the directory rests on.
 */
module SmsNames {
  import opened Basics

  const EXTENSION: string := ".json"

  function Pow16(k: nat): nat
    ensures Pow16(k) > 0
  {
    if k == 0 then 1 else 16 * Pow16(k - 1)
  }

  /** The sixteen digits `%x` prints, in order. */
  function HexChar(d: nat): char
    requires d < 16
  {
    "0123456789abcdef"[d]
  }

  lemma QuotientBelow(n: nat, p: nat, q: nat)
    requires p > 0 && n < q * p
    ensures n / p < q
  {
    DivMod(n, p);
    if n / p >= q {
      MulMono(q, n / p, p);
    }
  }

  /** The k hexadecimal digits of n, most significant first. */
  function HexDigits(n: nat, k: nat): (s: string)
    requires n < Pow16(k)
    ensures |s| == k
  {
    if k == 0 then ""
    else
      QuotientBelow(n, Pow16(k - 1), 16);
      [HexChar(n / Pow16(k - 1))] + HexDigits(n % Pow16(k - 1), k - 1)
  }

  /** The leading digit and the rest. */
  lemma Leading(n: nat, k: nat) returns (d: nat, rest: nat)
    requires 0 < k && n < Pow16(k)
    ensures d < 16 && rest < Pow16(k - 1) && n == d * Pow16(k - 1) + rest
    ensures HexDigits(n, k) == [HexChar(d)] + HexDigits(rest, k - 1)
  {
    var p := Pow16(k - 1);
    QuotientBelow(n, p, 16);
    DivMod(n, p);
    d, rest := n / p, n % p;
  }

  /** The name of a message file: `%08x` and the extension. */
  function FileName(id: nat): string
    requires id < TWO32
  {
    Pow16Of8();
    HexDigits(id, 8) + EXTENSION
  }

  /** `strcmp(a, b) < 0`. */
  predicate Before(a: string, b: string) {
    b != "" && (a == "" || a[0] < b[0] || (a[0] == b[0] && Before(a[1..], b[1..])))
  }

  lemma {:induction false} BeforeIrreflexive(a: string)
    ensures !Before(a, a)
  {
    if a != "" {
      BeforeIrreflexive(a[1..]);
    }
  }

  lemma {:induction false} BeforeTransitive(a: string, b: string, c: string)
    requires Before(a, b) && Before(b, c)
    ensures Before(a, c)
  {
    if a != "" && a[0] == b[0] && b[0] == c[0] {
      BeforeTransitive(a[1..], b[1..], c[1..]);
    }
  }

  // ---- text order is numeric order ---------------------------------------------------------

  lemma DigitsOrdered(d: nat, e: nat)
    requires d < e < 16
    ensures HexChar(d) < HexChar(e)
  {
  }

  lemma QuotientsOrdered(d: nat, a: nat, e: nat, b: nat, p: nat)
    requires a < p && b < p && d * p + a < e * p + b
    ensures d < e || (d == e && a < b)
  {
    assert (e + 1) * p == e * p + p;
    if d > e {
      MulMono(e + 1, d, p);
    }
  }

  lemma {:induction false} HexOrder(m: nat, n: nat, k: nat, suffix: string)
    requires m < n < Pow16(k)
    ensures Before(HexDigits(m, k) + suffix, HexDigits(n, k) + suffix)
  {
    if k > 0 {
      var d, x := Leading(m, k);
      var e, y := Leading(n, k);
      QuotientsOrdered(d, x, e, y, Pow16(k - 1));
      var a, b := HexDigits(m, k) + suffix, HexDigits(n, k) + suffix;
      assert a[1..] == HexDigits(x, k - 1) + suffix;
      assert b[1..] == HexDigits(y, k - 1) + suffix;
      if d < e {
        DigitsOrdered(d, e);
      } else {
        HexOrder(x, y, k - 1, suffix);
      }
    }
  }

  lemma Pow16Of8()
    ensures Pow16(8) == TWO32
  {
    assert Pow16(2) == 256;
    assert Pow16(4) == 16 * 16 * Pow16(2);
    assert Pow16(6) == 16 * 16 * Pow16(4);
  }

  /** File names are ordered as their identifiers. */
  lemma NamesOrdered(m: nat, n: nat)
    requires m < n < TWO32
    ensures Before(FileName(m), FileName(n))
  {
    Pow16Of8();
    HexOrder(m, n, 8, EXTENSION);
  }

  lemma {:induction false} DigitsAreHex(n: nat, k: nat)
    requires n < Pow16(k)
    ensures forall i :: 0 <= i < k ==> HexDigits(n, k)[i] in "0123456789abcdef"
    decreases k
  {
    if k > 0 {
      var d, rest := Leading(n, k);
      DigitsAreHex(rest, k - 1);
    }
  }

  /** Eight small hexadecimal digits and the extension.  As there are 2^32 such names, in the same
      order as the identifiers, each identifier has the name its number demands. */
  lemma NameShape(id: nat)
    requires id < TWO32
    ensures |FileName(id)| == 13 && FileName(id)[8..] == ".json"
    ensures forall i :: 0 <= i < 8 ==> FileName(id)[i] in "0123456789abcdef"
  {
    Pow16Of8();
    DigitsAreHex(id, 8);
  }

  // ---- reading a name back -----------------------------------------------------------------

  const INT_MAX: int := 0x7fff_ffff

  /** The value of a hexadecimal character, or -1. */
  function HexValue(c: char): int {
    if '0' <= c <= '9' then c as int - '0' as int
    else if 'a' <= c <= 'f' then c as int - 'a' as int + 10
    else if 'A' <= c <= 'F' then c as int - 'A' as int + 10
    else -1
  }

  /** What `le_hex_HexaToInteger` makes of the rest of a string: it gives up before a digit once
      the value so far exceeds INT_MAX / 16. */
  function ParseFrom(acc: nat, s: string): int
    decreases |s|
  {
    if s == "" then acc
    else if acc > INT_MAX / 16 || HexValue(s[0]) < 0 then -1
    else ParseFrom(16 * acc + HexValue(s[0]), s[1..])
  }

  /** Both cases of the sixteen digits, and nothing else, have a value. */
  lemma HexValues(c: char, d: nat)
    requires d < 16
    ensures HexValue("0123456789abcdef"[d]) == d && HexValue("0123456789ABCDEF"[d]) == d
    ensures IsHex(c) <==> c in "0123456789abcdefABCDEF"
  {
  }

  predicate IsHex(c: char) {
    '0' <= c <= '9' || 'a' <= c <= 'f' || 'A' <= c <= 'F'
  }

  predicate AllHex(s: string) {
    forall i :: 0 <= i < |s| ==> IsHex(s[i])
  }

  /** The number that acc and the digits after it denote in base 16. */
  function Hexadecimal(acc: nat, s: string): nat
    requires AllHex(s)
    decreases |s|
  {
    if s == "" then acc
    else
      Hexadecimal(16 * acc + HexValue(s[0]), s[1..])
  }

  lemma {:induction false} HexadecimalGrows(acc: nat, s: string)
    requires AllHex(s)
    ensures Hexadecimal(acc, s) >= if s == "" then acc else 16 * acc
    decreases |s|
  {
    if s != "" {
      HexadecimalGrows(16 * acc + HexValue(s[0]), s[1..]);
    }
  }

  /** The digit loop gives the number exactly when every character is a digit and the number is
      below 2^31, and -1 otherwise. */
  lemma {:induction false} ParsedIff(acc: nat, s: string)
    requires acc < 0x8000_0000
    ensures ParseFrom(acc, s)
            == if AllHex(s) && Hexadecimal(acc, s) < 0x8000_0000 then Hexadecimal(acc, s) else -1
    decreases |s|
  {
    if s != "" {
      DigitBound(s[0]);
      AllHexStep(s);
      if acc > INT_MAX / 16 {
        if AllHex(s) {
          HexadecimalGrows(acc, s);
        }
      } else if IsHex(s[0]) {
        ParsedIff(16 * acc + HexValue(s[0]), s[1..]);
      }
    }
  }

  lemma AllHexStep(s: string)
    requires s != ""
    ensures AllHex(s) <==> IsHex(s[0]) && AllHex(s[1..])
  {
    assert s == [s[0]] + s[1..];
  }

  lemma DigitBound(c: char)
    ensures HexValue(c) < 16 && (HexValue(c) >= 0 <==> IsHex(c))
  {
  }

  method HexaToInteger(s: string) returns (r: int)
    ensures r == ParseFrom(0, s)
    ensures r == if AllHex(s) && Hexadecimal(0, s) < 0x8000_0000 then Hexadecimal(0, s) else -1
  {
    ParsedIff(0, s);
    var result: nat := 0;
    var i := 0;
    while i < |s|
      invariant i <= |s|
      invariant ParseFrom(result, s[i..]) == ParseFrom(0, s)
    {
      assert s[i..][1..] == s[i + 1..];
      if result > INT_MAX / 16 || HexValue(s[i]) < 0 {
        return -1;
      }
      result := 16 * result + HexValue(s[i]);
      i := i + 1;
    }
    assert s[i..] == "";
    r := result;
  }

  lemma ValueOfDigit(d: nat)
    requires d < 16
    ensures HexValue(HexChar(d)) == d
  {
  }

  /** Digits read back as a number, up to the largest int. */
  lemma {:induction false} ParseDigits(acc: nat, n: nat, k: nat)
    requires n < Pow16(k) && acc < TWO31
    ensures ParseFrom(acc, HexDigits(n, k))
            == if acc * Pow16(k) + n < TWO31 then acc * Pow16(k) + n else -1
    decreases k
  {
    if k > 0 {
      var p := Pow16(k - 1);
      var d, rest := Leading(n, k);
      var digits := HexDigits(n, k);
      assert digits[0] == HexChar(d) && digits[1..] == HexDigits(rest, k - 1);
      ValueOfDigit(d);
      if acc > INT_MAX / 16 {
        MulMono(INT_MAX / 16 + 1, acc, 16 * p);
        assert (INT_MAX / 16 + 1) * (16 * p) >= TWO31;
      } else {
        ParseDigits(16 * acc + d, rest, k - 1);
        Horner(acc, d, p, rest);
      }
    }
  }

  lemma Horner(acc: nat, d: nat, p: nat, rest: nat)
    ensures (16 * acc + d) * p + rest == acc * (16 * p) + (d * p + rest)
  {
  }

  /** The part of a name before the first dot; `strtok_r` skips leading dots. */
  function Stem(name: string): Option<string> {
    if name == "" then None
    else if name[0] == '.' then Stem(name[1..])
    else Some(UpToDot(name))
  }

  function UpToDot(s: string): string {
    if s == "" || s[0] == '.' then "" else [s[0]] + UpToDot(s[1..])
  }

  lemma {:induction false} StemOfDigits(n: nat, k: nat)
    requires n < Pow16(k)
    ensures UpToDot(HexDigits(n, k) + EXTENSION) == HexDigits(n, k)
    ensures k > 0 ==> HexDigits(n, k)[0] != '.'
    decreases k
  {
    if k > 0 {
      var s := HexDigits(n, k) + EXTENSION;
      var d, rest := Leading(n, k);
      StemOfDigits(rest, k - 1);
      assert s[1..] == HexDigits(rest, k - 1) + EXTENSION;
      NoDot(d);
    }
  }

  lemma NoDot(d: nat)
    requires d < 16
    ensures HexChar(d) != '.'
  {
  }

  /** `GetMessageId`: the number a file name denotes, -1 when it cannot be told. */
  function MessageIdOf(name: string): int {
    match Stem(name)
    case None => -1
    case Some(stem) => ParseFrom(0, stem)
  }

  /** A file name gives its identifier back exactly when that is below 2^31. */
  lemma NameRoundTrip(id: nat)
    requires id < TWO32
    ensures MessageIdOf(FileName(id)) == if id < TWO31 then id else -1
  {
    Pow16Of8();
    StemOfDigits(id, 8);
    assert Stem(FileName(id)) == Some(HexDigits(id, 8));
    ParseDigits(0, id, 8);
  }

  // ---- the directory -----------------------------------------------------------------------

  predicate Sorted(names: seq<string>) {
    forall i, j :: 0 <= i < j < |names| ==> Before(names[i], names[j])
  }

  /** What `scandir` with `alphasort` returns for a directory of message files. */
  ghost predicate Listing(names: seq<string>, ids: set<nat>)
    requires forall i :: i in ids ==> i < TWO32
  {
    && Sorted(names)
    && (forall name :: name in names <==> name == "." || name == ".." ||
                                          exists id :: id in ids && name == FileName(id))
  }

  /** The next identifier after a restart. */
  ghost predicate IsReseed(ids: set<nat>, next: nat) {
    if ids == {} then next == 1
    else exists m :: m in ids && (forall i :: i in ids ==> i <= m)
                     && next == if m < TWO31 then m + 1 else 1
  }

  lemma DotsFirst(id: nat)
    requires id < TWO32
    ensures Before(".", "..") && Before("..", FileName(id))
  {
    Pow16Of8();
    var d, rest := Leading(id, 8);
    DotBelow(d);
    assert "."[1..] == "" && ".."[1..] == ".";
  }

  lemma DotBelow(d: nat)
    requires d < 16
    ensures '.' < HexChar(d)
  {
  }

  /** Nothing in a directory sorts after the file of the largest identifier. */
  lemma NothingAfterLargest(names: seq<string>, ids: set<nat>, m: nat, name: string)
    requires forall i :: i in ids ==> i < TWO32
    requires Listing(names, ids) && m in ids && forall i :: i in ids ==> i <= m
    requires name in names
    ensures !Before(FileName(m), name)
  {
    DotsFirst(m);
    if name == ".." {
      BeforeAsymmetric("..", FileName(m));
    } else if name == "." {
      BeforeTransitive(".", "..", FileName(m));
      BeforeAsymmetric(".", FileName(m));
    } else {
      var id :| id in ids && name == FileName(id);
      NotAfterLarger(id, m);
    }
  }

  lemma NotAfterLarger(id: nat, m: nat)
    requires id <= m < TWO32
    ensures !Before(FileName(m), FileName(id))
  {
    if id < m {
      NamesOrdered(id, m);
      BeforeAsymmetric(FileName(id), FileName(m));
    } else {
      BeforeIrreflexive(FileName(m));
    }
  }

  lemma BeforeAsymmetric(a: string, b: string)
    requires Before(a, b)
    ensures !Before(b, a)
  {
    BeforeIrreflexive(a);
    if Before(b, a) {
      BeforeTransitive(a, b, a);
    }
  }

  /** The last name of a directory that holds messages is the file of the largest identifier. */
  lemma LastIsLargest(names: seq<string>, ids: set<nat>, m: nat)
    requires forall i :: i in ids ==> i < TWO32
    requires Listing(names, ids) && m in ids && forall i :: i in ids ==> i <= m
    ensures |names| > 2 && names[|names| - 1] == FileName(m)
  {
    DotsFirst(m);
    BeforeTransitive(".", "..", FileName(m));
    BeforeIrreflexive(".");
    BeforeIrreflexive("..");
    BeforeIrreflexive(FileName(m));
    assert FileName(m) in names && "." in names && ".." in names;
    ThreeNames(names, ".", "..", FileName(m));
    var last := names[|names| - 1];
    NothingAfterLargest(names, ids, m, last);
    var k :| 0 <= k < |names| && names[k] == FileName(m);
  }

  lemma ThreeNames(names: seq<string>, a: string, b: string, c: string)
    requires a in names && b in names && c in names && a != b && b != c && a != c
    ensures |names| > 2
  {
    var i :| 0 <= i < |names| && names[i] == a;
    var j :| 0 <= j < |names| && names[j] == b;
    var k :| 0 <= k < |names| && names[k] == c;
  }

  lemma NotThreeDots(a: string, b: string, c: string)
    requires (a == "." || a == "..") && (b == "." || b == "..") && (c == "." || c == "..")
    ensures !(Before(a, b) && Before(b, c) && Before(a, c))
  {
    BeforeIrreflexive(a);
    BeforeIrreflexive(b);
  }

  lemma EmptyDirectory(names: seq<string>)
    requires Listing(names, {})
    ensures |names| <= 2
  {
    forall name | name in names
      ensures name == "." || name == ".."
    {
    }
    if |names| > 2 {
      var a, b, c := names[0], names[1], names[2];
      assert a in names && b in names && c in names;
      NotThreeDots(a, b, c);
    }
  }

  /** `InitSmsInBoxDirectory`: `NextMessageId` starts at 1 and is re-seeded from the last name. */
  method InitSmsInBoxDirectory(names: seq<string>, ghost ids: set<nat>) returns (next: nat)
    requires (forall i :: i in ids ==> i < TWO32) && Listing(names, ids)
    ensures IsReseed(ids, next) && next < TWO32
  {
    next := 1;
    if ids == {} {
      EmptyDirectory(names);
    } else {
      ghost var m := Largest(ids);
      LastIsLargest(names, ids, m);
      NameRoundTrip(m);
    }
    if |names| > 2 {
      var id := -1;
      var stem := Stem(names[|names| - 1]);
      if stem.Some? {
        id := HexaToInteger(stem.value);
      }
      if id == -1 {
        return;
      }
      next := id + 1;
    }
  }

  lemma Largest(ids: set<nat>) returns (m: nat)
    requires ids != {}
    ensures m in ids && forall i :: i in ids ==> i <= m
    decreases ids
  {
    m :| m in ids;
    var rest := ids - {m};
    assert forall i :: i in ids ==> i == m || i in rest;
    if rest != {} {
      var n := Largest(rest);
      if n > m {
        m := n;
      }
    }
  }
}
