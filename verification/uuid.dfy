/** `java.util.UUID` as 32 hexadecimal digits (most significant first), with
    the canonical 36-character text form `8-4-4-4-12` that `toString`
    produces and `fromString` reads back. */
module Uuids {
  import opened Wrappers

  predicate Nibbles(s: seq<int>) {
    |s| == 32 && forall i :: 0 <= i < 32 ==> 0 <= s[i] < 16
  }

  type Uuid = s: seq<int> | Nibbles(s) witness seq(32, _ => 0)

  /** The text positions of the four dashes. */
  predicate DashAt(p: int) {
    p == 8 || p == 13 || p == 18 || p == 23
  }

  /** Where hexadecimal digit `k` sits in the text. */
  function TextPos(k: int): (p: int)
    requires 0 <= k < 32
    ensures 0 <= p < 36 && !DashAt(p)
  {
    if k < 8 then k else if k < 12 then k + 1 else if k < 16 then k + 2 else if k < 20 then k + 3 else k + 4
  }

  /** Which hexadecimal digit a non-dash text position holds. */
  function DigitIndex(p: int): (k: int)
    requires 0 <= p < 36 && !DashAt(p)
    ensures 0 <= k < 32 && TextPos(k) == p
  {
    if p < 8 then p else if p < 13 then p - 1 else if p < 18 then p - 2 else if p < 23 then p - 3 else p - 4
  }

  predicate IsHex(c: char) {
    '0' <= c <= '9' || 'a' <= c <= 'f' || 'A' <= c <= 'F'
  }

  function HexValue(c: char): (v: int)
    requires IsHex(c)
    ensures 0 <= v < 16
  {
    if '0' <= c <= '9' then c as int - '0' as int
    else if 'a' <= c <= 'f' then c as int - 'a' as int + 10
    else c as int - 'A' as int + 10
  }

  /** Lower-case digit, as `toString` writes it. */
  function HexChar(v: int): (c: char)
    requires 0 <= v < 16
    ensures IsHex(c) && HexValue(c) == v && !('A' <= c <= 'F')
  {
    if v < 10 then ('0' as int + v) as char else ('a' as int + v - 10) as char
  }

  /** `toString()`. */
  function ToString(u: Uuid): (s: string)
    ensures |s| == 36
    ensures forall p :: 0 <= p < 36 ==> (DashAt(p) <==> s[p] == '-')
  {
    seq(36, p requires 0 <= p < 36 => if DashAt(p) then '-' else HexChar(u[DigitIndex(p)]))
  }

  /** The canonical form: 36 characters, dashes at 8, 13, 18 and 23 and a
      hexadecimal digit (either case) everywhere else. */
  predicate Canonical(s: string) {
    |s| == 36 && forall p :: 0 <= p < 36 ==> if DashAt(p) then s[p] == '-' else IsHex(s[p])
  }

  /** `UUID.fromString` on the canonical form; any other text is the
      `IllegalArgumentException` the call throws. */
  function FromString(s: string): (r: Result<Uuid>)
    ensures r.Ok? <==> Canonical(s)
  {
    if Canonical(s) then
      Ok(seq(32, k requires 0 <= k < 32 => HexValue(s[TextPos(k)])))
    else Err("Invalid UUID string: " + s)
  }

  /** Lower-casing of the hexadecimal letters. */
  function LowerHex(c: char): char {
    if 'A' <= c <= 'F' then (c as int - 'A' as int + 'a' as int) as char else c
  }

  /** Every UUID reads back from its own text. */
  lemma FromStringOfToString(u: Uuid)
    ensures FromString(ToString(u)) == Ok(u)
  {
    var s := ToString(u);
    assert Canonical(s);
    var v := FromString(s).value;
    forall k | 0 <= k < 32
      ensures v[k] == u[k]
    {
      assert DigitIndex(TextPos(k)) == k;
    }
    assert v == u;
  }

  /** Text that parses is the UUID's own text up to the case of its
      letters; so two texts name the same UUID exactly when they agree
      ignoring case. */
  lemma ToStringOfFromString(s: string)
    requires FromString(s).Ok?
    ensures ToString(FromString(s).value) == seq(36, p requires 0 <= p < 36 => LowerHex(s[p]))
  {
    var u := FromString(s).value;
    forall p | 0 <= p < 36 && !DashAt(p)
      ensures ToString(u)[p] == LowerHex(s[p])
    {
      var k := DigitIndex(p);
      assert u[k] == HexValue(s[p]);
    }
  }

  /** Different UUIDs have different texts. */
  lemma ToStringInjective(a: Uuid, b: Uuid)
    requires ToString(a) == ToString(b)
    ensures a == b
  {
    FromStringOfToString(a);
    FromStringOfToString(b);
  }
}
