/**
 * ArdSer.create_command: the text command sent to the Arduino over its serial line,
 * the three arguments each followed by the delimiter ':' and the command closed by '\n'.
 */
module ArdSer {
  import opened Common


  /** _DELIM, the separator after every argument. */
  const Delim: char := ':'

  /** _END, the terminator of every command. */
  const End: char := '\n'

  /** An argument of create_command: a string or an integer, as passed to str(). */
  datatype Value = Text(text: string) | Number(number: int)

  // ---------------------------------------------------------------------------
  // str() of an integer: its decimal numeral
  // ---------------------------------------------------------------------------

  function DigitChar(d: nat): char
    requires d < 10
  {
    "0123456789"[d]
  }

  /** The decimal numeral of n, with no leading zeros. */
  function Decimal(n: nat): (s: string)
    ensures |s| >= 1 && forall k :: 0 <= k < |s| ==> IsDigit(s[k])
  {
    if n < 10 then [DigitChar(n)] else Decimal(n / 10) + [DigitChar(n % 10)]
  }

  /** The number a string of decimal digits stands for. */
  function DecimalValue(s: string): nat
    requires forall k :: 0 <= k < |s| ==> IsDigit(s[k])
  {
    if |s| == 0 then 0
    else
      var last := s[|s| - 1];
      assert IsDigit(last);
      10 * DecimalValue(s[..|s| - 1]) + (last as int - '0' as int)
  }

  /** Reading a numeral back gives the number it was written from. */
  lemma {:induction false} DecimalRoundTrip(n: nat)
    ensures DecimalValue(Decimal(n)) == n
  {
    var s := Decimal(n);
    if n >= 10 {
      DecimalRoundTrip(n / 10);
      assert s[..|s| - 1] == Decimal(n / 10);
    }
  }

  /** str(v). */
  function Str(v: Value): (s: string)
    ensures v.Number? ==> |s| >= 1 && (forall k :: 0 <= k < |s| ==> s[k] != Delim && s[k] != End)
  {
    match v
    case Text(t) => t
    case Number(n) => if n < 0 then "-" + Decimal(-n) else Decimal(n)
  }

  /** A string int() accepts here: an optional '-' followed by at least one decimal digit. */
  predicate IsNumeral(s: string) {
    if |s| >= 1 && s[0] == '-' then |s| >= 2 && forall k :: 1 <= k < |s| ==> IsDigit(s[k])
    else |s| >= 1 && forall k :: 0 <= k < |s| ==> IsDigit(s[k])
  }

  /** int(s) of a numeral. */
  function IntValue(s: string): int
    requires IsNumeral(s)
  {
    if s[0] == '-' then
      var digits := s[1..];
      assert forall k :: 0 <= k < |digits| ==> digits[k] == s[k + 1];
      -(DecimalValue(digits) as int)
    else DecimalValue(s)
  }

  /** str() of an integer is a numeral, and int() of it gives the integer back. */
  lemma NumberRoundTrip(n: int)
    ensures IsNumeral(Str(Number(n))) && IntValue(Str(Number(n))) == n
  {
    var m: nat := if n < 0 then -n else n;
    var d := Decimal(m);
    DecimalRoundTrip(m);
    if n < 0 {
      var s := "-" + d;
      assert Str(Number(n)) == s;
      assert forall k :: 1 <= k < |s| ==> s[k] == d[k - 1];
      assert s[1..] == d;
    } else {
      assert Str(Number(n)) == d;
      assert IsDigit(d[0]);
    }
  }

  // ---------------------------------------------------------------------------
  // create_command
  // ---------------------------------------------------------------------------

  /** create_command(arg1, arg2='', arg3=''): 'arg1:arg2:arg3:\n'. */
  function CreateCommand(a1: Value, a2: Value := Text(""), a3: Value := Text("")): (c: string)
    ensures |c| == |Str(a1)| + |Str(a2)| + |Str(a3)| + 4
    ensures c[|c| - 2..] == [Delim, End]
  {
    Str(a1) + [Delim] + Str(a2) + [Delim] + Str(a3) + [Delim] + [End]
  }

  /** With both optional arguments left out the command is arg1 followed by ":::\n". */
  lemma DefaultArguments(a1: Value)
    ensures CreateCommand(a1) == Str(a1) + ":::\n"
  {
  }

  /** The command ends with the terminator and holds it nowhere else when no argument does. */
  lemma EndOnlyAtEnd(a1: Value, a2: Value, a3: Value)
    requires End !in Str(a1) && End !in Str(a2) && End !in Str(a3)
    ensures var c := CreateCommand(a1, a2, a3);
      c[|c| - 1] == End && forall k :: 0 <= k < |c| - 1 ==> c[k] != End
  {
  }

  // ---------------------------------------------------------------------------
  // str.split and str.join on one character
  // ---------------------------------------------------------------------------

  /** s.split(d): the pieces between the occurrences of d, so one more piece than occurrences. */
  function Split(s: string, d: char): (parts: seq<string>)
    ensures |parts| >= 1
  {
    if |s| == 0 then [""]
    else
      var rest := Split(s[1..], d);
      if s[0] == d then [""] + rest else [[s[0]] + rest[0]] + rest[1..]
  }

  /** d.join(parts). */
  function Join(parts: seq<string>, d: char): string
    requires |parts| >= 1
  {
    if |parts| == 1 then parts[0] else parts[0] + [d] + Join(parts[1..], d)
  }

  /** Joining the pieces of a split gives the string back. */
  lemma {:induction false} JoinSplit(s: string, d: char)
    ensures Join(Split(s, d), d) == s
  {
    if |s| > 0 {
      var rest := Split(s[1..], d);
      JoinSplit(s[1..], d);
      if s[0] == d {
        assert ([""] + rest)[1..] == rest;
        assert s == [] + [d] + s[1..];
      } else {
        var parts := [[s[0]] + rest[0]] + rest[1..];
        if |rest| == 1 {
          assert s == [s[0]] + s[1..];
        } else {
          assert parts[1..] == rest[1..];
          assert Join(rest, d) == rest[0] + [d] + Join(rest[1..], d);
          assert s == [s[0]] + s[1..];
        }
      }
    }
  }

  /** A piece without d, then d: the split starts with that piece. */
  lemma {:induction false} SplitAfterPiece(a: string, d: char, b: string)
    requires d !in a
    ensures Split(a + [d] + b, d) == [a] + Split(b, d)
  {
    if |a| == 0 {
      assert a + [d] + b == [d] + b;
      assert ([d] + b)[1..] == b;
    } else {
      SplitAfterPiece(a[1..], d, b);
      assert (a + [d] + b)[1..] == a[1..] + [d] + b;
      assert [a[0]] + a[1..] == a;
    }
  }

  /** A string without d is a single piece. */
  lemma {:induction false} SplitWhole(s: string, d: char)
    requires d !in s
    ensures Split(s, d) == [s]
  {
    if |s| > 0 {
      SplitWhole(s[1..], d);
      assert [s[0]] + s[1..] == s;
    }
  }

  /**
   * The documented structure 'arg1:arg2:arg3:\n': when no argument holds the delimiter,
   * splitting the command on it gives back the three arguments and the terminator.
   */
  lemma CommandFields(a1: Value, a2: Value, a3: Value)
    requires Delim !in Str(a1) && Delim !in Str(a2) && Delim !in Str(a3)
    ensures Split(CreateCommand(a1, a2, a3), Delim) == [Str(a1), Str(a2), Str(a3), [End]]
  {
    var s1, s2, s3 := Str(a1), Str(a2), Str(a3);
    var x1, x2, x3 := s1 + [Delim], s2 + [Delim], s3 + [Delim];
    // the command, regrouped as x1 + (x2 + (x3 + [End]))
    AppendAssoc(x1, s2, [Delim]);
    AppendAssoc(x1, x2, s3);
    AppendAssoc(x1, x2 + s3, [Delim]);
    AppendAssoc(x1, x2 + s3 + [Delim], [End]);
    AppendAssoc(x2, s3, [Delim]);
    AppendAssoc(x2, x3, [End]);
    assert CreateCommand(a1, a2, a3) == x1 + (x2 + (x3 + [End]));
    SplitWhole([End], Delim);
    SplitAfterPiece(s3, Delim, [End]);
    SplitAfterPiece(s2, Delim, x3 + [End]);
    SplitAfterPiece(s1, Delim, x2 + (x3 + [End]));
  }

  /** Integer arguments never hold the delimiter, so their command always splits into its fields. */
  lemma NumberFields(n1: int, n2: int, n3: int)
    ensures Split(CreateCommand(Number(n1), Number(n2), Number(n3)), Delim) ==
      [Str(Number(n1)), Str(Number(n2)), Str(Number(n3)), [End]]
  {
    CommandFields(Number(n1), Number(n2), Number(n3));
  }
}
