/** Destination temp names (agent/src/tempname.c; the coordinator writes the
    same format in planBigFiles): <prefix><job>-<pass>.<shard>.<seq>, lowercase
    hex. The leading tag tells live work from crash residue. */
module TempName {

  const U64: nat := 0x1_0000_0000_0000_0000
  const U32: nat := 0x1_0000_0000

  function HexDigit(d: nat): (c: char)
    requires d < 16
    ensures IsHex(c) && HexValue(c) == d
  {
    if d < 10 then '0' + d as char else 'a' + (d - 10) as char
  }

  predicate IsHex(c: char) { '0' <= c <= '9' || 'a' <= c <= 'f' }

  function HexValue(c: char): (d: nat)
    requires IsHex(c)
    ensures d < 16
  {
    if c <= '9' then c as int - '0' as int else c as int - 'a' as int + 10
  }

  /** printf's %x. */
  function Hex(n: nat): (s: string)
    ensures s != [] && forall k :: 0 <= k < |s| ==> IsHex(s[k])
    decreases n
  {
    if n < 16 then [HexDigit(n)] else Hex(n / 16) + [HexDigit(n % 16)]
  }

  ghost function ValueOf(s: string): nat
    requires forall k :: 0 <= k < |s| ==> IsHex(s[k])
  {
    if s == [] then 0 else 16 * ValueOf(s[..|s| - 1]) + HexValue(s[|s| - 1])
  }

  lemma {:induction false} ValueOfHex(n: nat)
    ensures ValueOf(Hex(n)) == n
    decreases n
  {
    if n >= 16 {
      ValueOfHex(n / 16);
      assert Hex(n)[..|Hex(n)| - 1] == Hex(n / 16);
    }
  }

  /** The tail after the prefix. */
  function Tail(job: nat, pass: nat, shard: nat, seq_: nat): string {
    Hex(job) + ("-" + (Hex(pass) + ("." + (Hex(shard) + ("." + Hex(seq_))))))
  }

  function TempName(prefix: string, job: nat, pass: nat, shard: nat, seq_: nat): string {
    prefix + Tail(job, pass, shard, seq_)
  }

  /** As printf writes it: no leading zero. */
  lemma {:induction false} NoLeadingZero(n: nat)
    ensures |Hex(n)| > 1 ==> Hex(n)[0] != '0'
    ensures n > 0 ==> Hex(n)[0] != '0'
    decreases n
  {
    if n >= 16 { NoLeadingZero(n / 16); }
  }

  /** Some numbers and one name, spelled out. */
  lemma SomeDigits()
    ensures Hex(0) == "0" && Hex(9) == "9" && Hex(0xa) == "a" && Hex(0xf) == "f" && Hex(0x3b) == "3b"
  {
  }

  lemma OneName(prefix: string)
    ensures TempName(prefix, 0x3b, 9, 0xa, 0xf) == prefix + "3b-9.a.f"
  {
    SomeDigits();
    assert "3b" + ("-" + ("9" + ("." + ("a" + ("." + "f"))))) == "3b-9.a.f";
  }

  datatype Parsed = Bad | Field(value: nat, rest: string)

  ghost predicate AllHex(s: string) {
    forall k :: 0 <= k < |s| ==> IsHex(s[k])
  }

  /** Length of the leading run of hex digits. */
  function HexPrefix(s: string): (k: nat)
    ensures k <= |s| && AllHex(s[..k])
  {
    if s == [] || !IsHex(s[0]) then 0 else 1 + HexPrefix(s[1..])
  }

  lemma {:induction false} HexPrefixIs(a: string, b: string)
    requires AllHex(a) && (b == [] || !IsHex(b[0]))
    ensures HexPrefix(a + b) == |a|
  {
    if a == [] {
      assert a + b == b;
    } else {
      assert (a + b)[1..] == a[1..] + b;
      HexPrefixIs(a[1..], b);
    }
  }

  /** The field a string starts with: at least one digit, then the terminator,
      with a value that fits 64 bits; anything else is rejected. */
  ghost function Parse(s: string, term: char): Parsed {
    var k := HexPrefix(s);
    if 0 < k < |s| && s[k] == term && ValueOf(s[..k]) < U64
    then Field(ValueOf(s[..k]), s[k + 1..]) else Bad
  }

  /** What is accepted, digit by digit: a field is a non-empty run of lower-case hex
      digits, worth less than 2^64, up to the first terminator. */
  lemma ParseIff(s: string, term: char, v: nat, rest: string)
    requires !IsHex(term)
    ensures Parse(s, term) == Field(v, rest) <==>
            exists d :: d != [] && AllHex(d) && s == d + ([term] + rest) && ValueOf(d) == v && v < U64
  {
    if Parse(s, term) == Field(v, rest) {
      var k := HexPrefix(s);
      assert s == s[..k] + ([term] + rest);
    }
    if d :| d != [] && AllHex(d) && s == d + ([term] + rest) && ValueOf(d) == v && v < U64 {
      HexPrefixIs(d, [term] + rest);
      assert s[..|d|] == d && s[|d|] == term && s[|d| + 1..] == rest;
    }
  }

  /** The digits are those of printf's %x, and no others. */
  lemma HexDigitsAre(c: char)
    ensures IsHex(c) <==> c in "0123456789abcdef"
    ensures forall i :: 0 <= i < 16 ==> HexValue("0123456789abcdef"[i]) == i
  {
    var all := "0123456789abcdef";
    if IsHex(c) {
      assert all[HexValue(c)] == c;
    }
  }

  lemma {:induction false} ValueGrows(s: string, i: nat, k: nat)
    requires i <= k <= |s| && AllHex(s[..k]) && AllHex(s[..i])
    ensures ValueOf(s[..i]) <= ValueOf(s[..k])
    decreases k
  {
    if i < k {
      assert s[..k][..k - 1] == s[..k - 1];
      ValueGrows(s, i, k - 1);
    }
  }

  /** parse_hex: the exact value or rejection, never a wrapped one. */
  method ParseHex(s: string, term: char) returns (r: Parsed)
    requires !IsHex(term)
    ensures r == Parse(s, term)
  {
    var v, i := 0, 0;
    while i < |s| && s[i] != term
      invariant 0 <= i <= |s| && AllHex(s[..i])
      invariant HexPrefix(s) == i + HexPrefix(s[i..])
      invariant v == ValueOf(s[..i]) < U64
    {
      if !IsHex(s[i]) {
        return Bad;
      }
      var d := HexValue(s[i]);
      assert s[i..][1..] == s[i + 1..];
      assert s[..i + 1][..i] == s[..i];
      if v > (U64 - 1 - d) / 16 {
        assert ValueOf(s[..i + 1]) >= U64;
        ValueGrows(s, i + 1, HexPrefix(s));
        return Bad;
      }
      v := v * 16 + d;
      i := i + 1;
    }
    if i == 0 || i == |s| {
      return Bad;
    }
    r := Field(v, s[i + 1..]);
  }

  /** A formatted field parses back to its value exactly when it fits 64 bits. */
  lemma FieldRoundTrip(n: nat, term: char, more: string)
    requires !IsHex(term)
    ensures Parse(Hex(n) + ([term] + more), term) == if n < U64 then Field(n, more) else Bad
  {
    var s, k := Hex(n) + ([term] + more), |Hex(n)|;
    HexPrefixIs(Hex(n), [term] + more);
    assert s[..k] == Hex(n) && s[k] == term && s[k + 1..] == more;
    ValueOfHex(n);
  }

  /** The decision of temp_tag_matches, on any string. */
  ghost predicate TagIs(tail: string, job: nat, pass: nat) {
    var p := Parse(tail, '-');
    p.Field? && p.value == job && var q := Parse(p.rest, '.'); q.Field? && q.value == pass
  }

  method TempTagMatches(tail: string, job: nat, pass: nat) returns (r: bool)
    ensures r <==> TagIs(tail, job, pass)
  {
    var p := ParseHex(tail, '-');
    if p.Bad? {
      return false;
    }
    var q := ParseHex(p.rest, '.');
    r := q.Field? && p.value == job && q.value == pass;
  }

  /** On a name this code wrote, the tag matches exactly for the same job and
      pass: a sweep never takes live work of its own pass for residue. */
  lemma FormattedTagMatchesIff(job: nat, pass: nat, shard: nat, seq_: nat, j: nat, p: nat)
    requires job < U64 && pass < U32
    ensures TagIs(Tail(job, pass, shard, seq_), j, p) <==> j == job && p == pass
  {
    var after := Hex(shard) + ("." + Hex(seq_));
    var rest := Hex(pass) + (['.'] + after);
    assert Tail(job, pass, shard, seq_) == Hex(job) + (['-'] + rest);
    FieldRoundTrip(job, '-', rest);
    FieldRoundTrip(pass, '.', after);
  }

  /** A field and its terminator determine the value and what follows. */
  lemma FieldInjective(a: nat, x: string, b: nat, y: string, term: char)
    requires !IsHex(term) && Hex(a) + ([term] + x) == Hex(b) + ([term] + y)
    ensures a == b && x == y
  {
    var s := Hex(a) + ([term] + x);
    HexPrefixIs(Hex(a), [term] + x);
    HexPrefixIs(Hex(b), [term] + y);
    var k := HexPrefix(s);
    assert Hex(a) == s[..k] && Hex(b) == s[..k];
    assert x == s[k + 1..] && y == s[k + 1..];
    ValueOfHex(a);
    ValueOfHex(b);
  }

  /** Names for one prefix are injective in all four fields. */
  lemma TempNameInjective(prefix: string, j: nat, p: nat, s: nat, q: nat, j': nat, p': nat, s': nat, q': nat)
    requires TempName(prefix, j, p, s, q) == TempName(prefix, j', p', s', q')
    ensures j == j' && p == p' && s == s' && q == q'
  {
    assert Tail(j, p, s, q) == TempName(prefix, j, p, s, q)[|prefix|..];
    assert Tail(j', p', s', q') == TempName(prefix, j', p', s', q')[|prefix|..];
    var a, a' := Hex(s) + ("." + Hex(q)), Hex(s') + ("." + Hex(q'));
    var b, b' := Hex(p) + ("." + a), Hex(p') + ("." + a');
    FieldInjective(j, b, j', b', '-');
    FieldInjective(p, a, p', a', '.');
    FieldInjective(s, Hex(q), s', Hex(q'), '.');
    ValueOfHex(q);
    ValueOfHex(q');
  }

  // ---------------------------------------------------------------------
  // The buffer
  // ---------------------------------------------------------------------

  function Pow16(k: nat): nat {
    if k == 0 then 1 else 16 * Pow16(k - 1)
  }

  lemma {:induction false} HexLength(n: nat, k: nat)
    requires k >= 1 && n < Pow16(k)
    ensures |Hex(n)| <= k
  {
    assert Pow16(0) == 1 && Pow16(1) == 16;
    if n >= 16 { HexLength(n / 16, k - 1); }
  }

  lemma Powers()
    ensures Pow16(8) == U32
    ensures Pow16(16) == U64
  {
    assert Pow16(16) == Pow16(8) * U32 by { assert Pow16(8) == U32; }
  }

  /** snprintf into a buffer of cap bytes. */
  function Formatted(cap: nat, name: string): string
    requires cap > 0
  {
    if |name| < cap then name else name[..cap - 1]
  }

  const NAME_MAX: nat := 255
  const PREFIX_MAX: nat := 63

  /** No name is cut off: the fields leave room for the longest prefix. */
  lemma NameFits(prefix: string, job: nat, pass: nat, shard: nat, seq_: nat)
    requires |prefix| <= PREFIX_MAX && job < U64 && pass < U32 && shard < U64 && seq_ < U32
    ensures Formatted(NAME_MAX + 1, TempName(prefix, job, pass, shard, seq_)) == TempName(prefix, job, pass, shard, seq_)
  {
    Powers();
    HexLength(job, 16);
    HexLength(pass, 8);
    HexLength(shard, 16);
    HexLength(seq_, 8);
  }

  /** So what the buffer holds is injective too. */
  lemma FormattedInjective(prefix: string, j: nat, p: nat, s: nat, q: nat, j': nat, p': nat, s': nat, q': nat)
    requires |prefix| <= PREFIX_MAX && j < U64 && p < U32 && s < U64 && q < U32
    requires j' < U64 && p' < U32 && s' < U64 && q' < U32
    requires Formatted(NAME_MAX + 1, TempName(prefix, j, p, s, q)) == Formatted(NAME_MAX + 1, TempName(prefix, j', p', s', q'))
    ensures j == j' && p == p' && s == s' && q == q'
  {
    NameFits(prefix, j, p, s, q);
    NameFits(prefix, j', p', s', q');
    TempNameInjective(prefix, j, p, s, q, j', p', s', q');
  }
}
