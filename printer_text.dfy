/**
 * The ticket layout helper of the peer's printer: two texts on one line,
 * pushed apart by repeated spacing to fill a given width.
 */
module PrinterText {
  /** The width the helper fills unless told otherwise, and the spacing it uses. */
  const DEFAULT_LENGTH: int := 60
  const DEFAULT_SPACING: string := " "
  /** The width the ticket lines use. */
  const TICKET_LINE_LENGTH: int := 24

  function Max(a: int, b: int): int
  {
    if a < b then b else a
  }

  /** `s` repeated `n` times, as string multiplication gives. */
  function Repeat(s: string, n: nat): (r: string)
    ensures |r| == |s| * n
  {
    if n == 0 then "" else s + Repeat(s, n - 1)
  }

  /** Repeating one character gives a run of that character. */
  lemma {:induction false} RepeatChar(s: string, n: nat)
    requires |s| == 1
    ensures forall i :: 0 <= i < |Repeat(s, n)| ==> Repeat(s, n)[i] == s[0]
  {
    if n > 0 {
      RepeatChar(s, n - 1);
      var rest := Repeat(s, n - 1);
      assert Repeat(s, n) == s + rest;
      forall i | 1 <= i < |Repeat(s, n)|
        ensures Repeat(s, n)[i] == rest[i - 1]
      {
      }
    }
  }

  /**
   * `string1`, then spacing repeated to make the line `lengthOfString` long
   * (counted as if the spacing were one character), then `string2`; texts
   * that already fill the width are joined with no spacing.
   */
  function SetStringLengthMultiple(string1: string, string2: string, lengthOfString: int, spacingChar: string): (r: string)
    ensures |r| >= |string1| + |string2|
    ensures r[..|string1|] == string1 && r[|r| - |string2|..] == string2
    ensures |string1| + |string2| >= lengthOfString ==> r == string1 + string2
    ensures |spacingChar| == 1 ==> |r| == Max(lengthOfString, |string1| + |string2|)
  {
    var remainingLength := lengthOfString - |string1| - |string2|;
    if remainingLength > 0 then string1 + Repeat(spacingChar, remainingLength) + string2
    else string1 + string2
  }

  /**
   * A line shorter than the width gets exactly the missing number of
   * repetitions between the two texts, and with a one-character spacing
   * every position between them holds that character.
   */
  lemma PaddedLine(string1: string, string2: string, lengthOfString: int, spacingChar: string)
    requires |string1| + |string2| < lengthOfString
    ensures var n := lengthOfString - |string1| - |string2|;
      SetStringLengthMultiple(string1, string2, lengthOfString, spacingChar) == string1 + Repeat(spacingChar, n) + string2
    ensures |spacingChar| == 1 ==>
      var r := SetStringLengthMultiple(string1, string2, lengthOfString, spacingChar);
      forall i :: |string1| <= i < lengthOfString - |string2| ==> r[i] == spacingChar[0]
  {
    var n := lengthOfString - |string1| - |string2|;
    var pad := Repeat(spacingChar, n);
    var r := string1 + pad + string2;
    assert SetStringLengthMultiple(string1, string2, lengthOfString, spacingChar) == r;
    if |spacingChar| == 1 {
      RepeatChar(spacingChar, n);
      SpacingRun(string1, pad, string2, spacingChar[0]);
    }
  }

  /** Between the two texts of `string1 + pad + string2` lies `pad`, position by position. */
  lemma SpacingRun(string1: string, pad: string, string2: string, c: char)
    requires forall j :: 0 <= j < |pad| ==> pad[j] == c
    ensures forall i :: |string1| <= i < |string1| + |pad| ==> (string1 + pad + string2)[i] == c
  {
    forall i | |string1| <= i < |string1| + |pad|
      ensures (string1 + pad + string2)[i] == c
    {
      assert (string1 + pad + string2)[i] == pad[i - |string1|];
    }
  }

  /** Ticket lines whose texts fit are exactly the ticket width, with the texts at either end. */
  lemma TicketLineFillsWidth(string1: string, string2: string)
    requires |string1| + |string2| <= TICKET_LINE_LENGTH
    ensures var r := SetStringLengthMultiple(string1, string2, TICKET_LINE_LENGTH, DEFAULT_SPACING);
      |r| == TICKET_LINE_LENGTH && r[..|string1|] == string1 && r[TICKET_LINE_LENGTH - |string2|..] == string2
  {
  }
}
