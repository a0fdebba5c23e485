/**
 Hexadecimal numerals: what `{:04X}` and `{:02X}` print, and what `u16::from_str_radix(_, 16)`
 accepts (crates/host/src/tcp.rs, crates/host/src/sim.rs).
 */
module Hex {
  import opened Widths
  import opened Outcomes

  function Digit(d: nat): char
    requires d < 16
  {
    "0123456789ABCDEF"[d]
  }

  function DigitValue(c: char): Option<nat> {
    if '0' <= c <= '9' then Some((c - '0') as nat)
    else if 'A' <= c <= 'F' then Some((c - 'A') as nat + 10)
    else if 'a' <= c <= 'f' then Some((c - 'a') as nat + 10)
    else None
  }

  // The last `width` digits, zero padded.
  function Print(n: nat, width: nat): string {
    if width == 0 then "" else Print(n / 16, width - 1) + [Digit(n % 16)]
  }

  // The running value, checked against u16 at every digit.
  function ParseDigits(text: string, value: nat): Option<u16>
    requires value <= 0xFFFF
  {
    if text == "" then Some(value)
    else
      match DigitValue(text[0])
      case None => None
      case Some(d) => if value * 16 + d > 0xFFFF then None else ParseDigits(text[1..], value * 16 + d)
  }

  // One leading plus sign is allowed, but not alone.
  function Unsigned(text: string): string {
    if |text| > 1 && text[0] == '+' then text[1..] else text
  }

  function Parse(text: string): Option<u16> {
    if text == "" then None else ParseDigits(Unsigned(text), 0)
  }

  // --- the positional value, without a width ---

  ghost predicate IsNumeral(text: string) {
    forall k :: 0 <= k < |text| ==> DigitValue(text[k]) != None
  }

  function Value(text: string): nat {
    if text == "" then 0
    else
      var d := DigitValue(text[|text| - 1]);
      16 * Value(text[..|text| - 1]) + (if d == None then 0 else d.value)
  }

  function Pow16(n: nat): nat {
    if n == 0 then 1 else 16 * Pow16(n - 1)
  }

  lemma Shift(d: nat, p: nat)
    ensures 16 * (d * p) == d * (16 * p)
  {
  }

  // Peeling the first digit instead of the last.
  lemma {:induction false} ValueCons(text: string)
    requires text != "" && DigitValue(text[0]) != None
    ensures Value(text) == DigitValue(text[0]).value * Pow16(|text| - 1) + Value(text[1..])
  {
    var n := |text| - 1;
    var init, rest := text[..n], text[1..];
    if n == 0 {
      assert init == "" && rest == "";
    } else {
      ValueCons(init);
      assert rest[..n - 1] == init[1..];
      assert rest[n - 1] == text[n];
      Shift(DigitValue(text[0]).value, Pow16(n - 1));
    }
  }

  lemma ShiftIn(value: nat, d: nat, p: nat)
    ensures value * (16 * p) + d * p == (value * 16 + d) * p
  {
  }

  lemma {:induction false} ParseDigitsExactly(text: string, value: nat)
    requires value <= 0xFFFF
    ensures var total := value * Pow16(|text|) + Value(text);
      ParseDigits(text, value) == if IsNumeral(text) && total <= 0xFFFF then Some(total) else None
  {
    if text != "" {
      var rest := text[1..];
      assert IsNumeral(text) <==> DigitValue(text[0]) != None && IsNumeral(rest);
      if DigitValue(text[0]) != None {
        var d := DigitValue(text[0]).value;
        ValueCons(text);
        ShiftIn(value, d, Pow16(|rest|));
        PositivePower(|rest|);
        if value * 16 + d <= 0xFFFF {
          ParseDigitsExactly(rest, value * 16 + d);
        } else {
          Grows(value * 16 + d, Pow16(|rest|));
        }
      }
    }
  }

  lemma Grows(value: nat, p: nat)
    requires p >= 1
    ensures value * p >= value
  {
  }

  lemma {:induction false} PositivePower(n: nat)
    ensures Pow16(n) >= 1
  {
    if n > 0 {
      PositivePower(n - 1);
    }
  }

  /** The parser accepts exactly the non-empty numerals, of any length and case, whose value fits. */
  lemma ParseExactly(text: string, n: u16)
    ensures Parse(text) == Some(n) <==>
      text != "" && IsNumeral(Unsigned(text)) && Value(Unsigned(text)) == n
  {
    if text != "" {
      ParseDigitsExactly(Unsigned(text), 0);
    }
  }

  lemma {:induction false} PrintedValue(n: nat, width: nat)
    requires n < Pow16(width)
    ensures |Print(n, width)| == width && IsNumeral(Print(n, width)) && Value(Print(n, width)) == n
  {
    if width > 0 {
      PrintedValue(n / 16, width - 1);
      var text := Print(n, width);
      assert text[..|text| - 1] == Print(n / 16, width - 1);
    }
  }

  // Digits are printed in upper case.
  lemma {:induction false} PrintedInUpperCase(n: nat, width: nat, k: nat)
    requires k < |Print(n, width)|
    ensures '0' <= Print(n, width)[k] <= '9' || 'A' <= Print(n, width)[k] <= 'F'
  {
    if k < |Print(n / 16, width - 1)| {
      PrintedInUpperCase(n / 16, width - 1, k);
    }
  }

  /** What is printed parses back. */
  lemma PrintThenParse(n: u16, width: nat)
    requires 0 < width && n < Pow16(width)
    ensures Parse(Print(n, width)) == Some(n)
  {
    PrintedValue(n, width);
    var text := Print(n, width);
    assert DigitValue(text[0]) != None;
    ParseExactly(text, n);
  }
}
