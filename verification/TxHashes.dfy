/** Transaction hashes as texts: what the handlers make of a text, and which texts name one payment on the chain. */
module TxHashes {

  predicate Blank(c: char) { c in " \t\r\n" }

  function Trim(text: string): string {
    if text == "" then ""
    else if Blank(text[0]) then Trim(text[1..])
    else if Blank(text[|text| - 1]) then Trim(text[..|text| - 1])
    else text
  }

  function LowerChar(c: char): char { if 'A' <= c <= 'Z' then c + ('a' - 'A') else c }

  function Lower(text: string): (lower: string)
    ensures |lower| == |text|
  {
    seq(|text|, i requires 0 <= i < |text| => LowerChar(text[i]))
  }

  predicate HexDigit(c: char) { '0' <= c <= '9' || 'a' <= c <= 'f' || 'A' <= c <= 'F' }

  /** 0x and 64 hexadecimal digits. */
  predicate IsHash(text: string) {
    |text| == 66 && text[0] == '0' && text[1] == 'x' && forall i :: 2 <= i < 66 ==> HexDigit(text[i])
  }

  /** The chain reads hashes without regard to case; any other text stands for itself. */
  function Canonical(text: string): string { if IsHash(Lower(text)) then Lower(text) else text }

  const BTCPAY_PREFIX := "btcpay:"

  function InvoiceHash(invoiceId: string): string { BTCPAY_PREFIX + Trim(invoiceId) }

  lemma HexDigits(c: char)
    ensures HexDigit(c) <==> c in "0123456789abcdefABCDEF"
  {
    var digits := "0123456789abcdefABCDEF";
    assert HexDigit(c) ==> exists i :: 0 <= i < |digits| && digits[i] == c by {
      if '0' <= c <= '9' {
        assert digits[c as int - '0' as int] == c;
      } else if 'a' <= c <= 'f' {
        assert digits[10 + c as int - 'a' as int] == c;
      } else if 'A' <= c <= 'F' {
        assert digits[16 + c as int - 'A' as int] == c;
      }
    }
  }

  /** The shape the handlers ask for, as their regular expression has it. */
  lemma IsHashIff(text: string)
    ensures IsHash(text) <==>
            |text| == 66 && text[..2] == "0x" && forall i :: 2 <= i < 66 ==> text[i] in "0123456789abcdefABCDEF"
  {
    if |text| == 66 {
      forall i | 2 <= i < 66
        ensures HexDigit(text[i]) <==> text[i] in "0123456789abcdefABCDEF"
      {
        HexDigits(text[i]);
      }
    }
  }

  /** Lower case changes capital letters and nothing else. */
  lemma LowerAlphabet(text: string)
    ensures Lower("ABCDEFGHIJKLMNOPQRSTUVWXYZ") == "abcdefghijklmnopqrstuvwxyz"
    ensures forall i :: 0 <= i < |text| && !('A' <= text[i] <= 'Z') ==> Lower(text)[i] == text[i]
  {
  }

  predicate AllBlank(text: string) { forall i :: 0 <= i < |text| ==> Blank(text[i]) }

  /** Trimming takes blanks off both ends, all of them and nothing else. */
  lemma {:induction false} TrimTakesBlanks(text: string) returns (left: string, right: string)
    ensures text == left + Trim(text) + right && AllBlank(left) && AllBlank(right)
    ensures Trim(text) != "" ==> !Blank(Trim(text)[0]) && !Blank(Trim(text)[|Trim(text)| - 1])
    decreases |text|
  {
    left, right := "", "";
    if text == "" {
    } else if Blank(text[0]) {
      left, right := TrimTakesBlanks(text[1..]);
      left := [text[0]] + left;
      assert text == [text[0]] + text[1..];
    } else if Blank(text[|text| - 1]) {
      left, right := TrimTakesBlanks(text[..|text| - 1]);
      right := right + [text[|text| - 1]];
      assert text == text[..|text| - 1] + [text[|text| - 1]];
    }
  }

  lemma TrimHash(text: string)
    requires IsHash(text)
    ensures Trim(text) == text
  {
    assert HexDigit(text[65]);
  }

  /** An invoice is never a respelling of anything else. */
  lemma InvoiceStandsAlone(invoiceId: string, text: string)
    requires Canonical(text) == Canonical(InvoiceHash(invoiceId))
    ensures text == InvoiceHash(invoiceId)
  {
    var hash := InvoiceHash(invoiceId);
    assert hash[0] == 'b' && Lower(hash)[0] == 'b';
  }

  /** One hash in two spellings. */
  lemma Spellings() returns (lower: string, upper: string)
    ensures IsHash(lower) && IsHash(upper) && lower != upper && Lower(upper) == lower
    ensures Canonical(lower) == lower == Canonical(upper)
  {
    lower, upper := "0x" + seq(64, _ => 'a'), "0x" + seq(64, _ => 'A');
    assert lower[2] == 'a' && upper[2] == 'A';
    assert Lower(upper) == lower && Lower(lower) == lower;
  }
}
