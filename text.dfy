/**
 * The bridge's text: decimal numbers as `int.ToString()` writes them, the
 * pipe-separated ticket strings it sends to the printer, their ASCII bytes,
 * and the debug rendering of a byte array.
 */
module Text {
  import opened Bytes
  import opened Wrappers

  predicate IsDigit(c: char)
  {
    '0' <= c <= '9'
  }

  function DigitChar(d: nat): (c: char)
    requires d < 10
    ensures IsDigit(c)
  {
    (('0' as int) + d) as char
  }

  function DigitValue(c: char): (d: nat)
    ensures d < 10
  {
    if IsDigit(c) then (c as int) - ('0' as int) else 0
  }

  /** `n.ToString()` for a non-negative `n`: decimal, most significant digit first, no padding. */
  function DecimalString(n: nat): (s: string)
    ensures |s| >= 1
    ensures forall i :: 0 <= i < |s| ==> IsDigit(s[i])
  {
    if n < 10 then [DigitChar(n)] else DecimalString(n / 10) + [DigitChar(n % 10)]
  }

  /** Reads a run of decimal digits, most significant first. */
  function ParseDecimal(s: string): nat
  {
    if |s| == 0 then 0 else ParseDecimal(s[..|s| - 1]) * 10 + DigitValue(s[|s| - 1])
  }

  lemma {:induction false} DecimalRoundTrip(n: nat)
    ensures ParseDecimal(DecimalString(n)) == n
  {
    var s := DecimalString(n);
    if n >= 10 {
      assert s[..|s| - 1] == DecimalString(n / 10);
      DecimalRoundTrip(n / 10);
    }
  }

  // ------------------------------------------------------- split and join

  /** The fields of `s` between occurrences of `sep`; there is always at least one. */
  function Split(s: string, sep: char): (r: seq<string>)
    ensures |r| >= 1
  {
    if |s| == 0 then [""]
    else
      var rest := Split(s[1..], sep);
      if s[0] == sep then [""] + rest else [[s[0]] + rest[0]] + rest[1..]
  }

  /** A string without the separator is one field. */
  lemma {:induction false} SplitWhole(a: string, sep: char)
    requires sep !in a
    ensures Split(a, sep) == [a]
  {
    if |a| > 0 {
      SplitWhole(a[1..], sep);
      assert [a[0]] + a[1..] == a;
    }
  }

  /** A leading field without the separator splits off first. */
  lemma {:induction false} SplitPrefix(a: string, sep: char, t: string)
    requires sep !in a
    ensures Split(a + [sep] + t, sep) == [a] + Split(t, sep)
  {
    if |a| == 0 {
      assert a + [sep] + t == [sep] + t;
      assert ([sep] + t)[1..] == t;
    } else {
      assert (a + [sep] + t)[1..] == a[1..] + [sep] + t;
      SplitPrefix(a[1..], sep, t);
      assert [a[0]] + a[1..] == a;
    }
  }

  /** The fields written one after another with `sep` between them. */
  function Join(fields: seq<string>, sep: char): string
  {
    if |fields| == 0 then ""
    else if |fields| == 1 then fields[0]
    else fields[0] + [sep] + Join(fields[1..], sep)
  }

  /** Splitting what was joined gives the fields back, provided no field holds the separator. */
  lemma {:induction false} SplitJoin(fields: seq<string>, sep: char)
    requires |fields| >= 1
    requires forall i :: 0 <= i < |fields| ==> sep !in fields[i]
    ensures Split(Join(fields, sep), sep) == fields
  {
    if |fields| == 1 {
      SplitWhole(fields[0], sep);
    } else {
      SplitJoin(fields[1..], sep);
      SplitPrefix(fields[0], sep, Join(fields[1..], sep));
      assert [fields[0]] + fields[1..] == fields;
    }
  }

  lemma NoSeparatorInDecimal(n: nat, sep: char)
    requires !IsDigit(sep)
    ensures sep !in DecimalString(n)
  {
  }

  // ---------------------------------------------------------------- tickets

  /** The fields of `System.DateTime` that the tickets print. */
  datatype DateTime = DateTime(year: nat, month: nat, day: nat, hour: nat, minute: nat, second: nat)

  function DateFields(d: DateTime): seq<string>
  {
    [DecimalString(d.year), DecimalString(d.month), DecimalString(d.day),
     DecimalString(d.hour), DecimalString(d.minute), DecimalString(d.second)]
  }

  /** `s += "|" + f` for each field `f` in turn, as the ticket builders write it. */
  function AppendFields(s: string, fields: seq<string>, sep: char): string
    decreases |fields|
  {
    if |fields| == 0 then s else AppendFields(s + [sep] + fields[0], fields[1..], sep)
  }

  lemma JoinMerge(a: string, b: string, rest: seq<string>, sep: char)
    ensures Join([a, b] + rest, sep) == Join([a + [sep] + b] + rest, sep)
  {
    assert ([a, b] + rest)[1..] == [b] + rest;
    if |rest| > 0 {
      assert ([b] + rest)[1..] == rest;
      assert ([a + [sep] + b] + rest)[1..] == rest;
    }
  }

  /** Appending the fields one by one builds the same string as joining them. */
  lemma {:induction false} AppendFieldsJoins(s: string, fields: seq<string>, sep: char)
    ensures AppendFields(s, fields, sep) == Join([s] + fields, sep)
    decreases |fields|
  {
    if |fields| > 0 {
      AppendFieldsJoins(s + [sep] + fields[0], fields[1..], sep);
      JoinMerge(s, fields[0], fields[1..], sep);
      assert [s, fields[0]] + fields[1..] == [s] + fields;
    }
  }

  /**
   * The voucher (and reprint) ticket text: the credits, then the one-based
   * station number, the validation number and the date and time, each after a `|`.
   */
  function VoucherTicketString(creditsToCashout: string, playerStationIndex: nat, validationNumber: string,
                               d: DateTime): string
  {
    AppendFields(creditsToCashout, [DecimalString(playerStationIndex + 1), validationNumber] + DateFields(d), '|')
  }

  /** The test ticket text: the date and time, each after a `|`, starting from the empty string. */
  function TestTicketString(d: DateTime): string
  {
    AppendFields("", DateFields(d), '|')
  }

  lemma DateFieldsHaveNoPipe(d: DateTime)
    ensures forall i :: 0 <= i < 6 ==> '|' !in DateFields(d)[i]
  {
    NoSeparatorInDecimal(d.year, '|');
    NoSeparatorInDecimal(d.month, '|');
    NoSeparatorInDecimal(d.day, '|');
    NoSeparatorInDecimal(d.hour, '|');
    NoSeparatorInDecimal(d.minute, '|');
    NoSeparatorInDecimal(d.second, '|');
  }

  /**
   * The peer can split a voucher ticket on `|` into its nine fields, as long as
   * neither the credits nor the validation number contains a `|`.
   */
  lemma VoucherTicketFields(credits: string, index: nat, validation: string, d: DateTime)
    requires '|' !in credits && '|' !in validation
    ensures Split(VoucherTicketString(credits, index, validation, d), '|')
      == [credits, DecimalString(index + 1), validation] + DateFields(d)
  {
    var rest := [DecimalString(index + 1), validation] + DateFields(d);
    AppendFieldsJoins(credits, rest, '|');
    DateFieldsHaveNoPipe(d);
    NoSeparatorInDecimal(index + 1, '|');
    assert [credits] + rest == [credits, DecimalString(index + 1), validation] + DateFields(d);
    SplitJoin([credits] + rest, '|');
  }

  /** The test ticket splits into an empty first field followed by the six date fields. */
  lemma TestTicketFields(d: DateTime)
    ensures Split(TestTicketString(d), '|') == [""] + DateFields(d)
  {
    AppendFieldsJoins("", DateFields(d), '|');
    DateFieldsHaveNoPipe(d);
    SplitJoin([""] + DateFields(d), '|');
  }

  /** Every character is a 7-bit ASCII character. */
  predicate IsAscii(s: string)
  {
    forall i :: 0 <= i < |s| ==> (s[i] as int) < 0x80
  }

  /** The characters a receiver reads back from ASCII bytes. */
  function AsciiDecode(bytes: seq<uint8>): string
  {
    seq(|bytes|, i requires 0 <= i < |bytes| => bytes[i] as char)
  }

  /**
   * `Encoding.ASCII.GetBytes`: one byte per character, `?` for anything
   * outside ASCII. Every byte is 7-bit, and the text reads back unchanged
   * exactly when it was all ASCII.
   */
  function AsciiBytes(s: string): (r: seq<uint8>)
    ensures |r| == |s|
    ensures forall i :: 0 <= i < |r| ==> r[i] < 0x80
    ensures AsciiDecode(r) == s <==> IsAscii(s)
  {
    var r := seq(|s|, i requires 0 <= i < |s| => if (s[i] as int) < 0x80 then s[i] as int else '?' as int);
    AsciiReadBack(s, r);
    r
  }

  /** Bytes that keep every ASCII character and replace the rest by `?` read back as the text iff it is all ASCII. */
  lemma AsciiReadBack(s: string, r: seq<uint8>)
    requires |r| == |s|
    requires forall i :: 0 <= i < |s| ==> r[i] == if (s[i] as int) < 0x80 then s[i] as int else '?' as int
    ensures AsciiDecode(r) == s <==> IsAscii(s)
  {
    if IsAscii(s) {
      assert AsciiDecode(r) == s by {
        forall i | 0 <= i < |s| ensures AsciiDecode(r)[i] == s[i] {
          assert r[i] == s[i] as int;
        }
      }
    }
    if AsciiDecode(r) == s {
      forall i | 0 <= i < |s| ensures (s[i] as int) < 0x80 {
        assert s[i] == AsciiDecode(r)[i];
      }
    }
  }

  lemma DecimalAscii(n: nat)
    ensures IsAscii(DecimalString(n))
  {
  }

  /** Appending ASCII fields after ASCII separators to an ASCII string keeps it ASCII. */
  lemma {:induction false} AppendFieldsAscii(s: string, fields: seq<string>, sep: char)
    requires IsAscii(s) && (sep as int) < 0x80
    requires forall i :: 0 <= i < |fields| ==> IsAscii(fields[i])
    ensures IsAscii(AppendFields(s, fields, sep))
    decreases |fields|
  {
    if |fields| > 0 {
      var s' := s + [sep] + fields[0];
      forall i | 0 <= i < |s'| ensures (s'[i] as int) < 0x80 {
        if i > |s| {
          assert s'[i] == fields[0][i - |s| - 1];
        }
      }
      forall i | 0 <= i < |fields[1..]| ensures IsAscii(fields[1..][i]) {
        assert fields[1..][i] == fields[i + 1];
      }
      AppendFieldsAscii(s', fields[1..], sep);
    }
  }

  lemma DateFieldsAscii(d: DateTime)
    ensures forall i :: 0 <= i < 6 ==> IsAscii(DateFields(d)[i])
  {
    DecimalAscii(d.year);
    DecimalAscii(d.month);
    DecimalAscii(d.day);
    DecimalAscii(d.hour);
    DecimalAscii(d.minute);
    DecimalAscii(d.second);
  }

  /**
   * A voucher ticket built from ASCII credits and an ASCII validation number
   * is all ASCII, so no `?` enters it and the printer reads back the text.
   */
  lemma VoucherTicketAscii(credits: string, index: nat, validation: string, d: DateTime)
    requires IsAscii(credits) && IsAscii(validation)
    ensures IsAscii(VoucherTicketString(credits, index, validation, d))
    ensures var t := VoucherTicketString(credits, index, validation, d); AsciiDecode(AsciiBytes(t)) == t
  {
    var fields := [DecimalString(index + 1), validation] + DateFields(d);
    DecimalAscii(index + 1);
    DateFieldsAscii(d);
    forall i | 0 <= i < |fields| ensures IsAscii(fields[i]) {
      if i >= 2 {
        assert fields[i] == DateFields(d)[i - 2];
      }
    }
    AppendFieldsAscii(credits, fields, '|');
  }

  /** The test ticket is always all ASCII and reads back unchanged. */
  lemma TestTicketAscii(d: DateTime)
    ensures IsAscii(TestTicketString(d))
    ensures AsciiDecode(AsciiBytes(TestTicketString(d))) == TestTicketString(d)
  {
    DateFieldsAscii(d);
    AppendFieldsAscii("", DateFields(d), '|');
  }

  // ------------------------------------------------------- debug rendering

  /** The bytes in decimal, separated by `", "`. */
  function ByteListBody(bytes: seq<uint8>): string
    requires |bytes| >= 1
  {
    if |bytes| == 1 then DecimalString(bytes[0])
    else DecimalString(bytes[0]) + ", " + ByteListBody(bytes[1..])
  }

  /** How the bridge renders a byte array in its logs: `Null`, `[]`, or `[a, b, c]`. */
  function ByteArrayText(packet: Option<seq<uint8>>): string
  {
    match packet
    case None => "Null"
    case Some(bytes) => if |bytes| == 0 then "[]" else "[" + ByteListBody(bytes) + "]"
  }

  /** Renders a byte array, one element at a time, as `ByteArrayText` describes. */
  method ByteArrayToString(packetArray: Option<seq<uint8>>) returns (byteString: string)
    ensures byteString == ByteArrayText(packetArray)
  {
    byteString := "";
    if packetArray.None? {
      return "Null";
    }
    var bytes := packetArray.value;
    if |bytes| == 0 {
      return "[]";
    }
    byteString := "[";
    for i := 0 to |bytes|
      invariant i < |bytes| ==> byteString + ByteListBody(bytes[i..]) + "]" == ByteArrayText(packetArray)
      invariant i == |bytes| ==> byteString == ByteArrayText(packetArray)
    {
      assert bytes[i..][1..] == bytes[i + 1..];
      byteString := byteString + DecimalString(bytes[i]);
      if i < |bytes| - 1 {
        byteString := byteString + ", ";
      } else {
        byteString := byteString + "]";
      }
    }
  }

  /** Drops leading spaces. */
  function TrimStart(s: string): string
  {
    if |s| > 0 && s[0] == ' ' then TrimStart(s[1..]) else s
  }

  /** Reads a rendered byte array back: the inverse of `ByteArrayText`. */
  function ParseByteArrayText(s: string): Option<seq<int>>
  {
    if s == "Null" then None
    else if s == "[]" || |s| < 2 then Some([])
    else
      var fields := Split(s[1..|s| - 1], ',');
      Some(seq(|fields|, i requires 0 <= i < |fields| => ParseDecimal(TrimStart(fields[i]))))
  }

  /** The fields of a rendered list: the first number bare, every later one after a space. */
  lemma {:induction false} SplitByteListBody(bytes: seq<uint8>, lead: string)
    requires |bytes| >= 1 && (lead == "" || lead == " ")
    ensures var fields := Split(lead + ByteListBody(bytes), ',');
      |fields| == |bytes| &&
      forall i :: 0 <= i < |bytes| ==> TrimStart(fields[i]) == DecimalString(bytes[i])
  {
    var d := DecimalString(bytes[0]);
    NoSeparatorInDecimal(bytes[0], ',');
    assert TrimStart(d) == d;
    if |bytes| == 1 {
      SplitWhole(lead + d, ',');
    } else {
      var t := " " + ByteListBody(bytes[1..]);
      assert lead + ByteListBody(bytes) == (lead + d) + [','] + t;
      SplitPrefix(lead + d, ',', t);
      SplitByteListBody(bytes[1..], " ");
    }
  }

  /** Every rendered byte array parses back to the same bytes; a null array to none. */
  lemma ByteArrayTextRoundTrip(packet: Option<seq<uint8>>)
    ensures packet.None? ==> ParseByteArrayText(ByteArrayText(packet)) == None
    ensures packet.Some? ==> ParseByteArrayText(ByteArrayText(packet)) == Some(packet.value)
  {
    if packet.Some? && |packet.value| > 0 {
      var bytes := packet.value;
      var s := ByteArrayText(packet);
      assert s[1..|s| - 1] == "" + ByteListBody(bytes);
      SplitByteListBody(bytes, "");
      var fields := Split(s[1..|s| - 1], ',');
      forall i | 0 <= i < |bytes|
        ensures ParseDecimal(TrimStart(fields[i])) == bytes[i]
      {
        DecimalRoundTrip(bytes[i]);
      }
      assert seq(|fields|, i requires 0 <= i < |fields| => ParseDecimal(TrimStart(fields[i]))) == bytes;
      assert s != "Null" && s != "[]" by {
        assert s[0] == '[' && s[|s| - 1] == ']';
        assert |s| >= 3;
      }
    }
  }
}
