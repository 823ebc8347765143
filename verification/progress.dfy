/** The progress cursor: the index of the next question to send, kept as
    decimal text in a file between runs. Reading falls back to 0 when the
    file is missing or does not hold an integer. */
module Progress {
  import opened Wrappers
  import opened Text

  predicate IsDigit(c: char)
  {
    '0' <= c <= '9'
  }

  predicate AllDigits(s: string)
  {
    forall i :: 0 <= i < |s| ==> IsDigit(s[i])
  }

  /** The integer grammar accepted: an optional sign, then one or more decimal digits. */
  predicate IsIntLiteral(s: string)
  {
    if |s| > 0 && (s[0] == '+' || s[0] == '-') then |s| > 1 && AllDigits(s[1..])
    else |s| > 0 && AllDigits(s)
  }

  /** The value of a string of decimal digits. */
  function DigitsValue(ds: string): nat
    requires AllDigits(ds)
  {
    if ds == [] then 0 else 10 * DigitsValue(ds[..|ds| - 1]) + (ds[|ds| - 1] as int - '0' as int)
  }

  /** `int(s)` on text that has already been stripped. */
  function ParseInt(s: string): (r: Option<int>)
    ensures r.Some? <==> IsIntLiteral(s)
  {
    if s == [] then None
    else if s[0] == '-' || s[0] == '+' then
      var digits := s[1..];
      if digits != [] && AllDigits(digits) then
        var magnitude: int := DigitsValue(digits);
        Some(if s[0] == '-' then -magnitude else magnitude)
      else None
    else if AllDigits(s) then Some(DigitsValue(s))
    else None
  }

  /** The character of a decimal digit. */
  function DigitChar(d: nat): (c: char)
    requires d < 10
    ensures IsDigit(c) && c as int - '0' as int == d
  {
    ('0' as int + d) as char
  }

  /** The decimal digits of a natural number, without leading zeros. */
  function ShowNat(n: nat): (s: string)
    ensures |s| >= 1 && AllDigits(s)
    ensures n > 0 ==> s[0] != '0'
  {
    if n < 10 then [DigitChar(n)] else ShowNat(n / 10) + [DigitChar(n % 10)]
  }

  /** `str(n)`. */
  function ShowInt(n: int): string
  {
    if n < 0 then "-" + ShowNat(-n) else ShowNat(n)
  }

  lemma {:induction false} DigitsOfShowNat(n: nat)
    ensures DigitsValue(ShowNat(n)) == n
  {
    var s := ShowNat(n);
    if n >= 10 {
      var init := ShowNat(n / 10);
      assert s == init + [DigitChar(n % 10)];
      assert s[..|s| - 1] == init;
      DigitsOfShowNat(n / 10);
      assert DigitsValue(s) == 10 * (n / 10) + n % 10;
    } else {
      assert s[..0] == [];
    }
  }

  /** `int(str(n)) == n`. */
  lemma ParseShowInt(n: int)
    ensures ParseInt(ShowInt(n)) == Some(n)
  {
    var s := ShowInt(n);
    if n < 0 {
      var digits := ShowNat(-n);
      assert s == "-" + digits;
      assert s[0] == '-';
      assert s[1..] == digits;
      DigitsOfShowNat(-n);
    } else {
      assert s == ShowNat(n);
      assert IsDigit(s[0]);
      DigitsOfShowNat(n);
    }
  }

  /** `get_progress`: the cursor file's text (absent when the file is
      missing), stripped and read as an integer, or 0. */
  function ReadCursor(file: Option<string>): (index: int)
    ensures file.None? ==> index == 0
    ensures file.Some? && !IsIntLiteral(Strip(file.value)) ==> index == 0
    ensures file.Some? && IsIntLiteral(Strip(file.value)) ==> ParseInt(Strip(file.value)) == Some(index)
  {
    match file
    case None => 0
    case Some(text) =>
      match ParseInt(Strip(text))
      case None => 0
      case Some(n) => n
  }

  /** What `update_progress` writes, `get_progress` reads back. */
  lemma WriteThenRead(index: int)
    ensures ReadCursor(Some(ShowInt(index))) == index
  {
    var s := ShowInt(index);
    assert s[0] == '-' || IsDigit(s[0]);
    assert IsDigit(s[|s| - 1]);
    StripUnchanged(s);
    ParseShowInt(index);
  }

  lemma ReadCursorPlain()
    ensures ReadCursor(Some("45\n")) == 45
  {
    assert Strip("45\n") == "45" by {
      assert "45\n"[..2] == "45";
    }
    assert DigitsValue("45") == 45 by {
      assert "45"[..1] == "4";
      assert "4"[..0] == "";
    }
  }

  lemma ReadCursorSigned()
    ensures ReadCursor(Some("-3")) == -3
  {
    assert "-3"[1..] == "3";
    assert "3"[..0] == "";
  }

  lemma ReadCursorFallback()
    ensures ReadCursor(Some("forty")) == 0
    ensures ReadCursor(Some("  ")) == 0
  {
    assert !IsDigit("forty"[0]);
    assert Strip("  ") == "" by {
      assert "  "[1..] == " ";
      assert " "[1..] == "";
    }
  }

  /** The persisted cursor file. */
  class CursorFile {
    /** The file's text; None while the file does not exist. */
    var content: Option<string>

    constructor(initial: Option<string>)
      ensures content == initial
    {
      content := initial;
    }

    /** `get_progress`. */
    method Read() returns (index: int)
      ensures index == ReadCursor(content)
    {
      index := 0;
      if content.Some? {
        var parsed := ParseInt(Strip(content.value));
        if parsed.Some? {
          index := parsed.value;
        }
      }
    }

    /** `update_progress`: overwrites the file with the decimal text of `index`. */
    method Write(index: int)
      modifies this
      ensures content == Some(ShowInt(index))
      ensures ReadCursor(content) == index
    {
      content := Some(ShowInt(index));
      WriteThenRead(index);
    }
  }
}
