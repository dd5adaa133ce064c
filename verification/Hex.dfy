/** Hexadecimal digits and the numbers they stand for. */
module Hex {
  import opened Basics

  const BAD: nat := 255

  /** hex2int: the value of a hexadecimal digit of either case, or 255. */
  function HexDigit(c: byte): nat {
    if 48 <= c <= 57 then c - 48
    else if 65 <= c <= 70 then c - 65 + 10
    else if 97 <= c <= 102 then c - 97 + 10
    else BAD
  }

  /** A byte has the value k exactly when it is the k-th of the sixteen digits, in either case. */
  lemma DigitPlace(c: byte, k: nat)
    requires k < 16
    ensures HexDigit(c) == k <==> c as char == "0123456789ABCDEF"[k] || c as char == "0123456789abcdef"[k]
    ensures HexDigit(c) < 16 || HexDigit(c) == 255
  {
    if k < 10 {
      assert "0123456789ABCDEF"[k] as int == 48 + k == "0123456789abcdef"[k] as int;
    } else {
      assert "0123456789ABCDEF"[k] as int == 55 + k && "0123456789abcdef"[k] as int == 87 + k;
    }
  }

  predicate IsHex(c: byte) { HexDigit(c) != BAD }

  ghost predicate AllHex(digits: Bytes) {
    forall i :: 0 <= i < |digits| ==> IsHex(digits[i])
  }

  /** The number a digit string stands for. */
  ghost function HexValue(digits: Bytes): nat {
    if digits == [] then 0 else 16 * HexValue(digits[..|digits| - 1]) + HexDigit(digits[|digits| - 1])
  }

  lemma HexValueNext(digits: Bytes, c: byte)
    ensures HexValue(digits + [c]) == 16 * HexValue(digits) + HexDigit(c)
  {
    assert (digits + [c])[..|digits|] == digits;
  }

  lemma NoHexValue()
    ensures HexValue([]) == 0
  {
  }
}
