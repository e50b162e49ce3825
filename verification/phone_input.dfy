/**
 * The Indian phone-number input box: the keystroke normaliser, the effect that
 * renders a value for display (and rewrites a value lacking the `+91` prefix),
 * the validity indicator, and the focus and blur handlers. Each handler is a
 * pure function from the current value to what it shows and what it passes to
 * the parent's `onChange`.
 */
module PhoneInput {
  import opened Common
  import opened Text

  const CountryPrefix: string := "+91"
  /** An Indian mobile number has ten local digits. */
  const LocalLength: nat := 10
  /** The prefix and ten digits. */
  const MaxValueLength: nat := 13

  /** The characters the keystroke handler keeps: digits and '+'. */
  predicate IsDialable(c: char) {
    IsDigit(c) || c == '+'
  }

  /**
   * The value passed to `onChange` for a keystroke that leaves `input` in the box.
   * Input shorter than 3 characters is an attempt to delete the prefix and is
   * answered with the bare prefix; otherwise everything but digits and '+' is
   * removed, and the result is forced to start with `+91` and capped at ten
   * further characters.
   */
  function HandleChange(input: string): (r: string)
    ensures StartsWith(r, CountryPrefix)
    ensures |r| <= MaxValueLength
    ensures forall i :: 0 <= i < |r| ==> IsDialable(r[i])
    ensures |input| < 3 ==> r == CountryPrefix
    // a cleaned input that already carries the prefix is only cut short, never rewritten
    ensures |input| >= 3 && StartsWith(Keep(input, IsDialable), CountryPrefix) ==>
              r == Keep(input, IsDialable)[..Min(MaxValueLength, |Keep(input, IsDialable)|)]
  {
    if |input| < 3 then CountryPrefix
    else
      var cleaned := Keep(input, IsDialable);
      if !StartsWith(cleaned, CountryPrefix) then
        if StartsWith(cleaned, "+") then CountryPrefix + Take(Drop(cleaned, 1), LocalLength)
        else CountryPrefix + Take(cleaned, LocalLength)
      else Take(cleaned, MaxValueLength)
  }

  /** Applying the normaliser to its own output changes nothing. */
  lemma HandleChangeIdempotent(input: string)
    ensures HandleChange(HandleChange(input)) == HandleChange(input)
  {
    var r := HandleChange(input);
    assert Keep(r, IsDialable) == r;
  }

  /**
   * Typing at least ten digits and no '+' yields the prefix followed by the first
   * ten digits typed.
   */
  lemma TypedDigitsGetPrefix(input: string)
    requires |input| >= 3 && '+' !in input
    ensures HandleChange(input) == CountryPrefix + Take(Digits(input), LocalLength)
  {
    forall i | 0 <= i < |input|
      ensures IsDialable(input[i]) == IsDigit(input[i])
    {
      assert input[i] in input;
    }
    KeepAgree(input, IsDialable, IsDigit);
    var cleaned := Keep(input, IsDialable);
    assert cleaned == Digits(input);
    assert cleaned != [] ==> IsDigit(cleaned[0]);
    assert !StartsWith(cleaned, "+");
    assert !StartsWith(cleaned, CountryPrefix);
  }

  /** What the box shows for a value and, when the value is rewritten, what is passed to `onChange`. */
  datatype Render = Render(display: string, emitted: Option<string>)

  /** The grouped form `+91 XXXXX YYYYY` of a local part, before trimming. */
  function Grouped(local: string): string {
    CountryPrefix + " " + (if |local| <= 5 then local else local[..5] + " " + local[5..])
  }

  /** The digits of a value typed without `+`: a leading `91` is taken as the country code when more follows. */
  function LocalDigits(value: string): string {
    var digits := Digits(value);
    if StartsWith(digits, "91") && |digits| > 2 then digits[2..] else digits
  }

  /** What the box shows for a value that starts with the prefix: the rest is trimmed and grouped. */
  function ShowPrefixed(rest: string): string {
    var local := Trim(rest);
    if |local| > 0 then Trim(Grouped(local)) else CountryPrefix
  }

  /** A value without the prefix: its digits are shown grouped, and the value is rewritten to carry the prefix. */
  function Rewrite(value: string): Render {
    var raw := LocalDigits(value);
    var display := Trim(CountryPrefix + " " + (if |raw| <= 5 then raw else raw[..5] + " " + Take(Drop(raw, 5), 5)));
    var clean := CountryPrefix + Take(raw, LocalLength);
    Render(display, if clean != value then Some(clean) else None)
  }

  /** The display-format effect, run whenever the value changes. */
  function RenderValue(value: string): (r: Render)
    ensures StartsWith(value, CountryPrefix) || value == "" ==> r.emitted == None
    ensures value == "" ==> r.display == ""
    // a value without the prefix is always rewritten, so `onChange` fires on every such value
    ensures value != "" && !StartsWith(value, CountryPrefix) ==>
              r.emitted == Some(CountryPrefix + Take(LocalDigits(value), LocalLength))
  {
    if StartsWith(value, CountryPrefix) then Render(ShowPrefixed(value[3..]), None)
    else if value != "" then Rewrite(value)
    else Render("", None)
  }

  /** The display of the prefix with at most five digits after it, and with more. */
  function ExpectedDisplay(local: string): string {
    if local == [] then CountryPrefix
    else if |local| <= 5 then CountryPrefix + " " + local
    else CountryPrefix + " " + local[..5] + " " + local[5..]
  }

  lemma TrimmedPrefixSpace()
    ensures Trim(CountryPrefix + " ") == CountryPrefix
  {
    assert TrimStart(CountryPrefix + " ") == CountryPrefix + " ";
    assert TrimEnd(CountryPrefix + " ") == TrimEnd(CountryPrefix);
  }

  /** Removing white space drops a space between two pieces. */
  lemma UngroupSpace(a: string, b: string)
    ensures RemoveWhitespace(a + " " + b) == RemoveWhitespace(a) + RemoveWhitespace(b)
  {
    KeepConcat(a + " ", b, NotWhitespace);
    KeepConcat(a, " ", NotWhitespace);
    assert Keep(" ", NotWhitespace) == [];
  }

  /** Removing white space from the expected display of a white-space-free local part gives the value back. */
  lemma ExpectedDisplayUngroups(local: string)
    requires NoWhitespace(local)
    ensures RemoveWhitespace(ExpectedDisplay(local)) == CountryPrefix + local
  {
    assert RemoveWhitespace(CountryPrefix) == CountryPrefix;
    if local == [] {
    } else if |local| <= 5 {
      assert RemoveWhitespace(local) == local;
      UngroupSpace(CountryPrefix, local);
    } else {
      var front, back := local[..5], local[5..];
      assert local == front + back;
      assert RemoveWhitespace(front) == front;
      assert RemoveWhitespace(back) == back;
      UngroupSpace(CountryPrefix + " " + front, back);
      UngroupSpace(CountryPrefix, front);
    }
  }

  /**
   * The value `+91` followed by a local part without white space is shown with a
   * space after the prefix and another after the fifth character; removing the
   * spaces from what is shown gives the value back.
   */
  lemma RenderPrefixed(local: string)
    requires NoWhitespace(local)
    ensures RenderValue(CountryPrefix + local) == Render(ExpectedDisplay(local), None)
    ensures RemoveWhitespace(RenderValue(CountryPrefix + local).display) == CountryPrefix + local
  {
    var value := CountryPrefix + local;
    assert value[3..] == local;
    assert StartsWith(value, CountryPrefix);
    ShowGrouped(local);
    ExpectedDisplayUngroups(local);
  }

  lemma GroupedIsExpected(local: string)
    requires local != []
    ensures Grouped(local) == ExpectedDisplay(local)
  {
    if |local| > 5 {
      var front, back := local[..5], local[5..];
      assert CountryPrefix + " " + (front + " " + back) == CountryPrefix + " " + front + " " + back;
    }
  }

  lemma ShowGrouped(local: string)
    requires NoWhitespace(local)
    ensures ShowPrefixed(local) == ExpectedDisplay(local)
  {
    TrimNoop(local);
    if local != [] {
      GroupedIsExpected(local);
      var g := Grouped(local);
      assert g[0] == '+';
      assert g[|g| - 1] == local[|local| - 1];
      assert !IsWhitespace(g[0]) && !IsWhitespace(g[|g| - 1]);
      TrimNoop(g);
      assert Trim(local) == local;
      assert ShowPrefixed(local) == Trim(g);
    } else {
      assert |Trim(local)| == 0;
    }
  }

  /**
   * The value the effect emits for a value lacking the prefix is a fixed point:
   * rendering it shows the same text and emits nothing further.
   */
  lemma RewriteIsStable(value: string)
    requires value != "" && !StartsWith(value, CountryPrefix)
    ensures RenderValue(value).emitted.Some?
    ensures RenderValue(RenderValue(value).emitted.value) == Render(RenderValue(value).display, None)
  {
    var raw := LocalDigits(value);
    var local := Take(raw, LocalLength);
    var clean := CountryPrefix + local;
    assert RenderValue(value).emitted == Some(clean);
    assert RenderValue(value).display == Rewrite(value).display;
    assert clean[3..] == local;
    assert StartsWith(clean, CountryPrefix);
    assert RenderValue(clean) == Render(ShowPrefixed(local), None);
    assert NoWhitespace(local) by {
      assert AllDigits(raw);
    }
    ShowGrouped(local);
    RewriteDisplay(raw);
  }

  /** The display the rewrite shows is the display of the rewritten value. */
  lemma RewriteDisplay(raw: string)
    requires AllDigits(raw)
    ensures Trim(CountryPrefix + " " + (if |raw| <= 5 then raw else raw[..5] + " " + Take(Drop(raw, 5), 5)))
            == ExpectedDisplay(Take(raw, LocalLength))
  {
    var local := Take(raw, LocalLength);
    var first := CountryPrefix + " " + (if |raw| <= 5 then raw else raw[..5] + " " + Take(Drop(raw, 5), 5));
    if raw == [] {
      assert first == CountryPrefix + " ";
      TrimmedPrefixSpace();
    } else {
      if |raw| > 5 {
        assert local[..5] == raw[..5];
        assert local[5..] == Take(Drop(raw, 5), 5);
      }
      assert first == Grouped(local);
      GroupedIsExpected(local);
      assert first[|first| - 1] == local[|local| - 1];
      TrimNoop(first);
    }
  }

  /** The validity indicator shown under the box. */
  predicate IsValid(value: string) {
    || value == ""
    || value == CountryPrefix
    || (StartsWith(value, CountryPrefix) && |Digits(value)| == 12)
    || (|Digits(value)| == 10 && !StartsWith(value, "+"))
  }

  /** A value produced by a keystroke is valid exactly when it is the bare prefix or carries ten more digits. */
  lemma KeystrokeValidity(input: string)
    ensures IsValid(HandleChange(input)) <==>
              HandleChange(input) == CountryPrefix || |Digits(HandleChange(input)[3..])| == LocalLength
  {
    var r := HandleChange(input);
    assert r == CountryPrefix + r[3..];
    KeepConcat(CountryPrefix, r[3..], IsDigit);
    assert Digits(CountryPrefix) == "91";
  }

  /** Typing ten digits (and no '+') gives a value the indicator accepts. */
  lemma TenTypedDigitsAreValid(input: string)
    requires |input| >= 3 && '+' !in input && |Digits(input)| >= LocalLength
    ensures HandleChange(input) == CountryPrefix + Digits(input)[..LocalLength]
    ensures IsValid(HandleChange(input))
  {
    TypedDigitsGetPrefix(input);
    KeystrokeValidity(input);
    var local := Digits(input)[..LocalLength];
    assert HandleChange(input)[3..] == local;
    assert Digits(local) == local;
  }

  /** The focus handler: an empty box receives the prefix. */
  function Focus(value: string): (emitted: Option<string>)
    ensures emitted != None <==> value == ""
    ensures emitted != None ==> emitted.value == CountryPrefix
    // what it emits is already a normalised keystroke value, and a valid one
    ensures emitted != None ==> HandleChange(emitted.value) == emitted.value && IsValid(emitted.value)
  {
    if value == "" then Some(CountryPrefix) else None
  }

  /** The blur handler: a box holding only the prefix is cleared (value and display). */
  function Blur(value: string): (emitted: Option<string>)
    ensures emitted != None <==> value == CountryPrefix
    ensures emitted != None ==> emitted.value == "" && RenderValue(emitted.value).display == ""
  {
    if value == CountryPrefix then Some("") else None
  }

  /** Focusing an empty box and leaving it untouched restores the empty box, and vice versa. */
  lemma FocusBlurRoundTrip(value: string)
    requires value == "" || value == CountryPrefix
    ensures value == "" ==> Focus(value).Some? && Blur(Focus(value).value) == Some(value)
    ensures value == CountryPrefix ==> Blur(value).Some? && Focus(Blur(value).value) == Some(value)
  {
  }
}
