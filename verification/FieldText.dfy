/** Field elements as text (src/poseidon.rs): 64 hexadecimal digits, most significant
    first, of a number below the order of the field. */
module FieldText {
  import opened Base
  import NoteTree

  const HEX_LEN := 64

  /** The characters trimmed from both ends: Unicode white space. */
  predicate White(c: char) {
    var n := c as int;
    || 0x09 <= n <= 0x0D || n == 0x20 || n == 0x85 || n == 0xA0 || n == 0x1680
    || 0x2000 <= n <= 0x200A || n == 0x2028 || n == 0x2029 || n == 0x202F || n == 0x205F || n == 0x3000
  }

  function TrimStart(s: Bytes): Bytes {
    if s != [] && White(s[0]) then TrimStart(s[1..]) else s
  }

  function TrimEnd(s: Bytes): Bytes {
    if s != [] && White(s[|s| - 1]) then TrimEnd(s[..|s| - 1]) else s
  }

  function Trim(s: Bytes): Bytes {
    TrimEnd(TrimStart(s))
  }

  predicate IsDigit(c: char) {
    '0' <= c <= '9' || 'a' <= c <= 'f' || 'A' <= c <= 'F'
  }

  function DigitValue(c: char): (d: nat)
    requires IsDigit(c)
    ensures d < 16
  {
    if c <= '9' then c as int - '0' as int
    else if c <= 'F' then c as int - 'A' as int + 10
    else c as int - 'a' as int + 10
  }

  predicate AllDigits(s: Bytes) {
    forall i :: 0 <= i < |s| ==> IsDigit(s[i])
  }

  function Value(s: Bytes): nat
    requires AllDigits(s)
  {
    if s == [] then 0 else Value(s[..|s| - 1]) * 16 + DigitValue(s[|s| - 1])
  }

  /** Reads an element: either letter case, white space around it, any 256-bit number. */
  function FrFromHex(order: nat, s: Bytes): Option<NoteTree.Fr>
    requires order > 0
  {
    var t := Trim(s);
    if |t| == HEX_LEN && AllDigits(t) then Some(Value(t) % order) else None
  }

  function LowerDigit(d: nat): char
    requires d < 16
  {
    if d < 10 then '0' + d as char else 'a' + (d - 10) as char
  }

  function Digits(n: nat, len: nat): (s: Bytes)
    ensures |s| == len
  {
    if len == 0 then [] else Digits(n / 16, len - 1) + [LowerDigit(n % 16)]
  }

  /** The one spelling the writer uses. */
  function FrToHex(f: NoteTree.Fr): Bytes {
    Digits(f, HEX_LEN)
  }

  function Sixteens(n: nat): nat {
    if n == 0 then 1 else 16 * Sixteens(n - 1)
  }

  predicate Lower(s: Bytes) {
    forall i :: 0 <= i < |s| ==> '0' <= s[i] <= '9' || 'a' <= s[i] <= 'f'
  }

  /** Readable off the text: no white space, no upper case, below the order. */
  predicate Plain(order: nat, s: Bytes) {
    |s| == HEX_LEN && Lower(s) && Value(s) < order
  }

  lemma {:induction false} DigitsRead(n: nat, len: nat)
    requires n < Sixteens(len)
    ensures Lower(Digits(n, len)) && Value(Digits(n, len)) == n
  {
    if len > 0 {
      DigitsRead(n / 16, len - 1);
      assert Digits(n, len)[..len - 1] == Digits(n / 16, len - 1);
    }
  }

  lemma DigitReadsBack(c: char)
    requires '0' <= c <= '9' || 'a' <= c <= 'f'
    ensures LowerDigit(DigitValue(c)) == c
  {
  }

  lemma DigitsSnoc(v: nat, d: nat, len: nat)
    requires d < 16
    ensures Digits(v * 16 + d, len + 1) == Digits(v, len) + [LowerDigit(d)]
  {
    assert (v * 16 + d) / 16 == v && (v * 16 + d) % 16 == d;
  }

  lemma {:induction false} ReadDigits(s: Bytes)
    requires Lower(s)
    ensures Digits(Value(s), |s|) == s
  {
    hide Digits, DigitValue, LowerDigit;
    if s == [] {
      assert Digits(0, 0) == [];
    } else {
      var t, c := s[..|s| - 1], s[|s| - 1];
      ReadDigits(t);
      DigitsSnoc(Value(t), DigitValue(c), |t|);
      DigitReadsBack(c);
      assert s == t + [c];
    }
  }

  lemma NothingToTrim(s: Bytes)
    requires AllDigits(s)
    ensures Trim(s) == s
  {
  }

  /** Writing an element and reading it back gives the element. */
  lemma WriteThenRead(order: nat, f: NoteTree.Fr)
    requires f < order <= Sixteens(HEX_LEN)
    ensures FrFromHex(order, FrToHex(f)) == Some(f)
  {
    hide Sixteens, Value, Digits, Trim;
    DigitsRead(f, HEX_LEN);
    NothingToTrim(FrToHex(f));
  }

  /** Reading a text and writing it back gives the text exactly when the text is plain. */
  lemma ReadThenWriteIff(order: nat, s: Bytes)
    requires 0 < order <= Sixteens(HEX_LEN)
    ensures FrFromHex(order, s).Some? && FrToHex(FrFromHex(order, s).value) == s <==> Plain(order, s)
  {
    hide Sixteens, Value, Digits, Trim;
    if FrFromHex(order, s).Some? && FrToHex(FrFromHex(order, s).value) == s {
      DigitsRead(FrFromHex(order, s).value, HEX_LEN);
    }
    if Plain(order, s) {
      NothingToTrim(s);
      ReadDigits(s);
    }
  }

  lemma {:induction false} TrimSpaced(s: Bytes)
    ensures Trim(s + " ") == Trim(s)
  {
    if s != [] && White(s[0]) {
      TrimSpaced(s[1..]);
      assert (s + " ")[1..] == s[1..] + " ";
    } else if s == [] {
      assert s + " " == " " && " "[1..] == "";
    } else {
      assert (s + " ")[..|s|] == s;
    }
  }

  /** A second spelling of every element. */
  lemma SpacedReadsTheSame(order: nat, s: Bytes)
    requires order > 0
    ensures FrFromHex(order, s + " ") == FrFromHex(order, s)
  {
    TrimSpaced(s);
  }
}
