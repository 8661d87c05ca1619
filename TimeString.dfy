/**
  `TimeString.init?(with:)`: reads a JSON time such as "09:30:00" as an hour
  and a minute. The string is split on ':' and the last piece is dropped;
  exactly two pieces must remain, both are read with `Int(_:)`, and the
  seconds are always set to 0, whatever the third piece says.

  The initialiser as written checks `components.count` a second time where
  the count of successfully read integers was meant, so a piece that is not
  a number makes it index past the end of `intArr`. `ParseAsWritten` models
  that, `Parse` is the intended initialiser (it returns nil instead), and the
  rest of the model uses `Parse`.
*/
module TimeStrings {
  import opened Wrappers
  import opened Text

  datatype TimeString = TimeString(hour: int, minutes: int, seconds: int)

  /** The three outcomes of the initialiser as written. */
  datatype ParseAsWrittenOutcome = NoTime | Parsed(time: TimeString) | IndexOutOfRange

  /** Swift's `dropLast()`: everything but the last element (nothing for an empty sequence). */
  function DropLast<T>(s: seq<T>): (r: seq<T>)
    ensures |s| > 0 ==> |r| == |s| - 1 && r == s[..|s| - 1]
    ensures |s| == 0 ==> r == []
  {
    if s == [] then [] else s[..|s| - 1]
  }

  /** `compactMap { Int($0) }`: the pieces that read as integers, in order. */
  function CompactMapInts(pieces: seq<string>): (ints: seq<int>)
    ensures |ints| <= |pieces|
    ensures |ints| == |pieces| <==> forall i :: 0 <= i < |pieces| ==> ParseInt(pieces[i]).Some?
    decreases |pieces|
  {
    if pieces == [] then []
    else
      var head := match ParseInt(pieces[0]) case Some(v) => [v] case None => [];
      var tail := CompactMapInts(pieces[1..]);
      assert forall i :: 1 <= i < |pieces| ==> pieces[i] == pieces[1..][i - 1];
      head + tail
  }

  /** The two pieces every accepted string is read from. */
  function Pieces(s: string): seq<string> {
    DropLast(Split(s, ':'))
  }

  /** The initialiser exactly as written, including the latent index trap. */
  function ParseAsWritten(jsonString: Option<string>): ParseAsWrittenOutcome {
    match jsonString
    case None => NoTime
    case Some(s) =>
      var components := Pieces(s);
      if |components| != 2 then NoTime
      else
        var intArr := CompactMapInts(components);
        // the second guard re-checks components.count, which is already known to be 2
        if |components| != 2 then NoTime
        else if |intArr| < 2 then IndexOutOfRange
        else Parsed(TimeString(intArr[0], intArr[1], 0))
  }

  /** The intended initialiser: the second guard checks the number of integers read. */
  function Parse(jsonString: Option<string>): (r: Option<TimeString>)
    ensures r.Some? ==> r.value.seconds == 0
    ensures r.Some? ==> jsonString.Some? && |Split(jsonString.value, ':')| == 3
  {
    match jsonString
    case None => None
    case Some(s) =>
      var components := Pieces(s);
      if |components| != 2 then None
      else
        var intArr := CompactMapInts(components);
        if |intArr| != 2 then None
        else Some(TimeString(intArr[0], intArr[1], 0))
  }

  /** `CompactMapInts` on two pieces keeps both exactly when both read as integers. */
  lemma CompactMapTwo(a: string, b: string)
    ensures |CompactMapInts([a, b])| == 2 <==> ParseInt(a).Some? && ParseInt(b).Some?
    ensures |CompactMapInts([a, b])| == 2 ==> CompactMapInts([a, b]) == [ParseInt(a).value, ParseInt(b).value]
  {
    assert [a, b][1..] == [b];
    assert [b][1..] == [];
  }

  /** The pieces of `h:m:x` when none of the three contains a colon. */
  lemma PiecesOfTime(h: string, m: string, x: string)
    requires ':' !in h && ':' !in m && ':' !in x
    ensures Split(h + ":" + m + ":" + x, ':') == [h, m, x]
    ensures Pieces(h + ":" + m + ":" + x) == [h, m]
  {
    var parts := [h, m, x];
    assert FreeOf(parts, ':');
    assert parts[1..] == [m, x] && parts[1..][1..] == [x];
    JoinThree(h, m, x, ':');
    SplitJoin(parts, ':');
  }

  /** Accepted strings are exactly `H:M:X` with integer H and M: every accepted string has that
      shape and the result is read from it. */
  lemma ParseSound(s: string)
    requires Parse(Some(s)).Some?
    ensures var parts := Split(s, ':');
      && |parts| == 3
      && s == parts[0] + ":" + parts[1] + ":" + parts[2]
      && Parse(Some(s)) == Some(TimeString(ParseInt(parts[0]).value, ParseInt(parts[1]).value, 0))
  {
    var parts := Split(s, ':');
    JoinSplit(s, ':');
    assert parts == [parts[0], parts[1], parts[2]];
    JoinThree(parts[0], parts[1], parts[2], ':');
    assert Pieces(s) == [parts[0], parts[1]];
    CompactMapTwo(parts[0], parts[1]);
  }

  /** ... and every string of that shape is accepted (the third piece is ignored). */
  lemma ParseComplete(h: string, m: string, x: string)
    requires ':' !in x
    requires ParseInt(h).Some? && ParseInt(m).Some?
    ensures Parse(Some(h + ":" + m + ":" + x)) == Some(TimeString(ParseInt(h).value, ParseInt(m).value, 0))
  {
    PiecesOfTime(h, m, x);
    CompactMapTwo(h, m);
  }

  /** Any number of colons other than two is rejected: "H:M" and "1:2:3:4" both give nil. */
  lemma ParseRejectsOtherShapes(s: string)
    requires |Split(s, ':')| != 3
    ensures Parse(Some(s)) == None && ParseAsWritten(Some(s)) == NoTime
  {
  }

  /** Where the initialiser as written does not trap, it agrees with the intended one. */
  lemma AsWrittenAgreesWhenNoTrap(json: Option<string>)
    requires ParseAsWritten(json) != IndexOutOfRange
    ensures ParseAsWritten(json) == (match Parse(json) case None => NoTime case Some(t) => Parsed(t))
  {
  }

  /** A well-shaped string with a piece that is not a number makes the initialiser as written
      index past the end of `intArr`, where the intended one returns nil. */
  lemma AsWrittenTrapsOnNonNumericPiece(h: string, m: string, x: string)
    requires ':' !in h && ':' !in m && ':' !in x
    requires ParseInt(h).None? || ParseInt(m).None?
    ensures ParseAsWritten(Some(h + ":" + m + ":" + x)) == IndexOutOfRange
    ensures Parse(Some(h + ":" + m + ":" + x)) == None
  {
    PiecesOfTime(h, m, x);
    CompactMapTwo(h, m);
  }

  /** The concrete input "ab:00:00" shows the trap. */
  lemma AsWrittenTrapExample()
    ensures ParseAsWritten(Some("ab:00:00")) == IndexOutOfRange
    ensures Parse(Some("ab:00:00")) == None
  {
    assert "ab:00:00" == "ab" + ":" + "00" + ":" + "00";
    assert !IsDigit("ab"[0]);
    AsWrittenTrapsOnNonNumericPiece("ab", "00", "00");
  }

  /** "9:00:00" has hour 9, as asserted at TradingAlarmTests/TradingAlarmTests.swift:24. */
  lemma ParseNineOClock()
    ensures Parse(Some("9:00:00")) == Some(TimeString(9, 0, 0))
  {
    assert DigitsValue("9") == 9 by { assert "9"[..0] == ""; }
    assert DigitsValue("00") == 0 by { assert "00"[..1] == "0"; assert "0"[..0] == ""; }
    ParseIntOfDigits("9");
    ParseIntOfDigits("00");
    assert "9:00:00" == "9" + ":" + "00" + ":" + "00";
    ParseComplete("9", "00", "00");
  }

  /** "02:17:00" has hour 2, as asserted at TradingAlarmTests/TradingAlarmTests.swift:25. */
  lemma ParseTwoSeventeen()
    ensures Parse(Some("02:17:00")) == Some(TimeString(2, 17, 0))
  {
    assert DigitsValue("02") == 2 by { assert "02"[..1] == "0"; assert "0"[..0] == ""; }
    assert DigitsValue("17") == 17 by { assert "17"[..1] == "1"; assert "1"[..0] == ""; }
    ParseIntOfDigits("02");
    ParseIntOfDigits("17");
    assert "02:17:00" == "02" + ":" + "17" + ":" + "00";
    ParseComplete("02", "17", "00");
  }

  /** "04:20:00" does not have hour 12, as asserted at TradingAlarmTests/TradingAlarmTests.swift:27. */
  lemma ParseFourTwenty()
    ensures Parse(Some("04:20:00")).Some? && Parse(Some("04:20:00")).value.hour != 12
  {
    assert DigitsValue("04") == 4 by { assert "04"[..1] == "0"; assert "0"[..0] == ""; }
    assert DigitsValue("20") == 20 by { assert "20"[..1] == "2"; assert "2"[..0] == ""; }
    ParseIntOfDigits("04");
    ParseIntOfDigits("20");
    assert "04:20:00" == "04" + ":" + "20" + ":" + "00";
    ParseComplete("04", "20", "00");
  }
}
