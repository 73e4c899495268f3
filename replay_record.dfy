/** The field value types of a replay record and their fixed-column wire text
    (RivalsReplayManager/src/ReplayRecord.cpp). */
module ReplayRecord {
  import opened Failures
  import opened Decimal
  import opened Utf8Help
  import opened ReplayRecordDefs

  /** `uint8_t`, the type of a version component. */
  type Byte = x: int | 0 <= x < 256

  // ----- Version -----

  /** The largest value + 1 that component `i` can show in its column: major and minor have
      one digit, patch and rev two. */
  function VersionLimit(i: nat): nat
  {
    if i < 2 then 10 else 100
  }

  predicate VersionInRange(c: seq<Byte>)
    requires |c| == VERSION_DIGITS
  {
    forall i :: 0 <= i < VERSION_DIGITS ==> c[i] < VersionLimit(i)
  }

  /** The constructor's checks, in order: the first component too wide for its column is
      reported, with its index and value. */
  function VersionCheck(c: seq<Byte>): (r: Outcome)
    requires |c| == VERSION_DIGITS
    ensures r.Pass? <==> VersionInRange(c)
    ensures r.Fail? ==> r.error.InvalidVersion? && r.error.component < VERSION_DIGITS
    ensures r.Fail? ==> var i := r.error.component;
                        r.error.value == c[i] && VersionLimit(i) <= c[i] &&
                        forall j :: 0 <= j < i ==> c[j] < VersionLimit(j)
  {
    if c[0] >= 10 then Fail(InvalidVersion(0, c[0]))
    else if c[1] >= 10 then Fail(InvalidVersion(1, c[1]))
    else if c[2] >= 100 then Fail(InvalidVersion(2, c[2]))
    else if c[3] >= 100 then Fail(InvalidVersion(3, c[3]))
    else Pass
  }

  /** The wire text of four components: major and minor as they are, patch and rev
      zero-filled to two columns ("{}{}{:0>2}{:0>2}"). */
  function VersionText(c: seq<Byte>): string
    requires |c| == VERSION_DIGITS
  {
    IntToText(c[0]) + IntToText(c[1]) + ZeroPadded(c[2], 2) + ZeroPadded(c[3], 2)
  }

  /** The wire text fills exactly its six columns when, and only when, every component is
      within its column width. */
  lemma VersionTextWidth(c: seq<Byte>)
    requires |c| == VERSION_DIGITS
    ensures |VersionText(c)| == 6 <==> VersionInRange(c)
  {
    PlainIsPadded(c[0]);
    PlainIsPadded(c[1]);
    FieldWidth(c[0], 1);
    FieldWidth(c[1], 1);
    FieldWidth(c[2], 2);
    FieldWidth(c[3], 2);
    SixColumns(ZeroPadded(c[0], 1), ZeroPadded(c[1], 1), ZeroPadded(c[2], 2), ZeroPadded(c[3], 2));
    assert Pow10(1) == 10 && Pow10(2) == 100;
    VersionInRangeCases(c);
  }

  /** The range condition written out component by component. */
  lemma VersionInRangeCases(c: seq<Byte>)
    requires |c| == VERSION_DIGITS
    ensures VersionInRange(c) <==> c[0] < 10 && c[1] < 10 && c[2] < 100 && c[3] < 100
  {
    assert VersionLimit(0) == 10 && VersionLimit(1) == 10 && VersionLimit(2) == 100 && VersionLimit(3) == 100;
  }

  /** Four fields at least 1, 1, 2 and 2 columns wide take six columns together exactly when
      each takes no more than its minimum. */
  lemma SixColumns(a: string, b: string, p: string, q: string)
    requires |a| >= 1 && |b| >= 1 && |p| >= 2 && |q| >= 2
    ensures |a + b + p + q| == 6 <==> |a| == 1 && |b| == 1 && |p| == 2 && |q| == 2
  {
  }

  /** Reading the six digits back with 1-, 1-, 2- and 2-digit `ReadNum`s yields the four
      components again. */
  lemma VersionRoundTrip(c: seq<Byte>)
    requires |c| == VERSION_DIGITS && VersionInRange(c)
    ensures var t := VersionText(c);
            |t| == 6 && AllDigits(t) &&
            StoLL(t[0..1]) == Ok(c[0]) && StoLL(t[1..2]) == Ok(c[1]) &&
            StoLL(t[2..4]) == Ok(c[2]) && StoLL(t[4..6]) == Ok(c[3])
  {
    assert c[0] < VersionLimit(0) && c[1] < VersionLimit(1);
    assert c[2] < VersionLimit(2) && c[3] < VersionLimit(3);
    PlainIsPadded(c[0]);
    PlainIsPadded(c[1]);
    ZeroPaddedReadBack(c[0], 1);
    ZeroPaddedReadBack(c[1], 1);
    ZeroPaddedReadBack(c[2], 2);
    ZeroPaddedReadBack(c[3], 2);
    VersionFields(ZeroPadded(c[0], 1), ZeroPadded(c[1], 1), ZeroPadded(c[2], 2), ZeroPadded(c[3], 2), c);
  }

  /** Four fields of widths 1, 1, 2 and 2 that read back as `c`'s components, laid side by
      side, are six digits that read back field by field as `c`. */
  lemma VersionFields(a: string, b: string, p: string, q: string, c: seq<Byte>)
    requires |c| == VERSION_DIGITS
    requires |a| == 1 && |b| == 1 && |p| == 2 && |q| == 2
    requires AllDigits(a) && AllDigits(b) && AllDigits(p) && AllDigits(q)
    requires StoLL(a) == Ok(c[0]) && StoLL(b) == Ok(c[1]) && StoLL(p) == Ok(c[2]) && StoLL(q) == Ok(c[3])
    ensures var t := a + b + p + q;
            |t| == 6 && AllDigits(t) &&
            StoLL(t[0..1]) == Ok(c[0]) && StoLL(t[1..2]) == Ok(c[1]) &&
            StoLL(t[2..4]) == Ok(c[2]) && StoLL(t[4..6]) == Ok(c[3])
  {
    var t := a + b + p + q;
    assert t[0..1] == a && t[1..2] == b && t[2..4] == p && t[4..6] == q;
  }

  /** A version number: four components in an array that `operator[]` hands out
      references into. */
  class Version {
    const nums: array<Byte>

    ghost predicate Valid()
      reads this
    {
      nums.Length == VERSION_DIGITS
    }

    function Components(): seq<Byte>
      reads this, nums
      requires Valid()
    {
      nums[..]
    }

    /** Version(): 0.0.0.0. */
    constructor Default()
      ensures Valid() && fresh(nums) && Components() == [0, 0, 0, 0]
      ensures VersionInRange(Components())
    {
      nums := new Byte[VERSION_DIGITS](_ => 0);
    }

    /** The member-initialiser list of Version(major, minor, patch, rev). */
    constructor Init(major: Byte, minor: Byte, patch: Byte, rev: Byte)
      ensures Valid() && fresh(nums) && Components() == [major, minor, patch, rev]
    {
      var a := new Byte[VERSION_DIGITS];
      a[0], a[1], a[2], a[3] := major, minor, patch, rev;
      nums := a;
    }

    /** Version(major, minor, patch, rev): store the components, then throw on the first
        one too wide for its column. */
    static method New(major: Byte, minor: Byte, patch: Byte, rev: Byte) returns (r: Result<Version>)
      ensures r.Ok? <==> VersionInRange([major, minor, patch, rev])
      ensures r.Err? ==> VersionCheck([major, minor, patch, rev]) == Fail(r.error)
      ensures r.Ok? ==> r.value.Valid() && fresh(r.value.nums) &&
                        r.value.Components() == [major, minor, patch, rev]
    {
      var v := new Version.Init(major, minor, patch, rev);
      var check := VersionCheck(v.Components());
      if check.Fail? {
        return Err(check.error);
      }
      return Ok(v);
    }

    /** operator[] used to read: the component at `idx`, or std::out_of_range. */
    method At(idx: int) returns (r: Result<Byte>)
      requires Valid()
      ensures 0 <= idx < VERSION_DIGITS <==> r.Ok?
      ensures r.Ok? ==> r.value == Components()[idx]
      ensures r.Err? ==> r.error == InvalidVersionIndex(idx)
    {
      if idx < 0 || idx >= VERSION_DIGITS {
        return Err(InvalidVersionIndex(idx));
      }
      return Ok(nums[idx]);
    }

    /** operator[] used to write: the component at `idx` becomes `value` and no other
        changes. The reference bypasses the constructor's range check. */
    method Put(idx: int, value: Byte) returns (r: Outcome)
      requires Valid()
      modifies nums
      ensures Valid()
      ensures 0 <= idx < VERSION_DIGITS <==> r.Pass?
      ensures r.Fail? ==> r.error == InvalidVersionIndex(idx)
      ensures Components() == if r.Pass? then old(Components())[idx := value] else old(Components())
    {
      if idx < 0 || idx >= VERSION_DIGITS {
        return Fail(InvalidVersionIndex(idx));
      }
      nums[idx] := value;
      return Pass;
    }

    /** Serialize: six digits exactly when the components fit their columns; see
        VersionRoundTrip for reading them back. */
    function Serialize(): (r: string)
      reads this, nums
      requires Valid()
      ensures |r| == 6 <==> VersionInRange(Components())
      ensures VersionInRange(Components()) ==> AllDigits(r)
    {
      VersionTextWidth(nums[..]);
      if VersionInRange(nums[..]) then VersionRoundTrip(nums[..]); VersionText(nums[..])
      else VersionText(nums[..])
    }
  }

  // ----- DateTime -----

  /** A timestamp. No calendar check is made; the fields are plain integers. */
  datatype DateTime = DateTime(year: int, month: int, day: int, hour: int, minute: int, second: int)
  {
    /** Every field fits its column: two digits, four for the year. */
    predicate FitsColumns()
    {
      0 <= hour < 100 && 0 <= minute < 100 && 0 <= second < 100 &&
      0 <= day < 100 && 0 <= month < 100 && 0 <= year < 10000
    }

    /** Serialize: wire order hh mm ss DD MM YYYY, each zero-filled on the left. The text
        is 14 digits exactly when every field fits its column; see DateTimeRoundTrip for
        reading them back. */
    function Serialize(): (r: string)
      ensures |r| >= 14
      ensures |r| == 14 && AllDigits(r) <==> FitsColumns()
    {
      var h, mi, s := ZeroPadded(hour, 2), ZeroPadded(minute, 2), ZeroPadded(second, 2);
      var dd, mo, y := ZeroPadded(day, 2), ZeroPadded(month, 2), ZeroPadded(year, 4);
      ZeroPaddedDigits(hour, 2);
      ZeroPaddedDigits(minute, 2);
      ZeroPaddedDigits(second, 2);
      ZeroPaddedDigits(day, 2);
      ZeroPaddedDigits(month, 2);
      ZeroPaddedDigits(year, 4);
      assert Pow10(2) == 100 && Pow10(4) == 10000;
      FourteenColumns(h, mi, s, dd, mo, y);
      h + mi + s + dd + mo + y
    }
  }

  /** DateTime(): every field zero. */
  const DEFAULT_DATE_TIME: DateTime := DateTime(0, 0, 0, 0, 0, 0)

  /** When every field fits, the text is 14 digits, and reading 2, 2, 2, 2, 2 and 4 digits
      gives hour, minute, second, day, month and year, in that order. */
  lemma DateTimeRoundTrip(d: DateTime)
    requires d.FitsColumns()
    ensures var t := d.Serialize();
            |t| == 14 && AllDigits(t) &&
            StoLL(t[0..2]) == Ok(d.hour) && StoLL(t[2..4]) == Ok(d.minute) &&
            StoLL(t[4..6]) == Ok(d.second) && StoLL(t[6..8]) == Ok(d.day) &&
            StoLL(t[8..10]) == Ok(d.month) && StoLL(t[10..14]) == Ok(d.year)
  {
    var h, mi, s := ZeroPadded(d.hour, 2), ZeroPadded(d.minute, 2), ZeroPadded(d.second, 2);
    var dd, mo, y := ZeroPadded(d.day, 2), ZeroPadded(d.month, 2), ZeroPadded(d.year, 4);
    ZeroPaddedReadBack(d.hour, 2);
    ZeroPaddedReadBack(d.minute, 2);
    ZeroPaddedReadBack(d.second, 2);
    ZeroPaddedReadBack(d.day, 2);
    ZeroPaddedReadBack(d.month, 2);
    ZeroPaddedReadBack(d.year, 4);
    DateTimeFields(h, mi, s, dd, mo, y);
    DigitsConcat(h, mi);
    DigitsConcat(h + mi, s);
    DigitsConcat(h + mi + s, dd);
    DigitsConcat(h + mi + s + dd, mo);
    DigitsConcat(h + mi + s + dd + mo, y);
  }

  /** Six fields at least 2, 2, 2, 2, 2 and 4 columns wide make 14 digits together exactly
      when each is all digits and takes no more than its minimum. */
  lemma FourteenColumns(h: string, mi: string, s: string, dd: string, mo: string, y: string)
    requires |h| >= 2 && |mi| >= 2 && |s| >= 2 && |dd| >= 2 && |mo| >= 2 && |y| >= 4
    ensures var t := h + mi + s + dd + mo + y;
            |t| >= 14 &&
            (|t| == 14 && AllDigits(t) <==>
             |h| == 2 && |mi| == 2 && |s| == 2 && |dd| == 2 && |mo| == 2 && |y| == 4 &&
             AllDigits(h) && AllDigits(mi) && AllDigits(s) &&
             AllDigits(dd) && AllDigits(mo) && AllDigits(y))
  {
    DigitsSplit(h, mi);
    DigitsSplit(h + mi, s);
    DigitsSplit(h + mi + s, dd);
    DigitsSplit(h + mi + s + dd, mo);
    DigitsSplit(h + mi + s + dd + mo, y);
  }

  /** Where the six fields of a timestamp text sit in it. */
  lemma DateTimeFields(h: string, mi: string, s: string, dd: string, mo: string, y: string)
    requires |h| == 2 && |mi| == 2 && |s| == 2 && |dd| == 2 && |mo| == 2 && |y| == 4
    ensures var t := h + mi + s + dd + mo + y;
            |t| == 14 && t[0..2] == h && t[2..4] == mi && t[4..6] == s &&
            t[6..8] == dd && t[8..10] == mo && t[10..14] == y
  {
  }

  // ----- Name and Description -----

  /** The stored form of a name or description: trailing spaces removed, then upper-cased. */
  function Normalized(s: string): string
  {
    UpperString(RTrimmed(s))
  }

  /** A text that normalising leaves as it is. */
  predicate IsNormalized(t: string)
  {
    RTrimmed(t) == t && UpperString(t) == t
  }

  /** Normalising yields a normalised text, no longer than the input. */
  lemma NormalizedIsNormalized(s: string)
    ensures IsNormalized(Normalized(s)) && |Normalized(s)| <= |s|
  {
    var t := RTrimmed(s);
    RTrimmedShape(s);
    RTrimmedIdempotent(s);
    UpperCommutesWithTrim(t);
    UpperStringIdempotent(t);
  }

  /** Padding a stored text with spaces to its field width and normalising the result gives
      the stored text back: Set(Serialize()) reproduces the field. */
  lemma PaddedRoundTrip(t: string, width: nat)
    requires IsNormalized(t) && |t| <= width
    ensures |t + Repeat(' ', width - |t|)| == width
    ensures Normalized(t + Repeat(' ', width - |t|)) == t
  {
    RTrimmedPadding(t, width - |t|);
  }

  /** Trim then upper-case as Name::Set and Description::Set intend it, with the blank text
      handled: the helpers are only called on non-empty text. */
  method Normalize(s: string) returns (t: string)
    ensures t == Normalized(s)
  {
    t := s;
    if t != "" {
      var trimmed := RTrimSpace(t);
      t := trimmed.value;
    }
    if t != "" {
      var upper := Upper(t);
      t := upper.value;
    }
  }

  /** Name::Set and Description::Set as written: RTrimSpace and Upper are called unguarded,
      so a text that is empty, or trims to empty, throws utf8::not_enough_room. */
  method SetAsWritten(s: string, maxLen: nat) returns (r: Result<string>)
    ensures r.Ok? <==> RTrimmed(s) != [] && |Normalized(s)| <= maxLen
    ensures RTrimmed(s) == [] ==> r == Err(NotEnoughRoom)
    ensures RTrimmed(s) != [] && maxLen < |Normalized(s)| ==> r == Err(TextTooLong(|Normalized(s)|, maxLen))
    ensures r.Ok? ==> r.value == Normalized(s)
  {
    var trimmed :- RTrimSpace(s);
    var upper :- Upper(trimmed);
    if |upper| > maxLen {
      return Err(TextTooLong(|upper|, maxLen));
    }
    return Ok(upper);
  }

  /** The default constructor Name() is Name(""), which as written throws. */
  method DefaultNameAsWritten() returns (r: Result<string>)
    ensures r == Err(NotEnoughRoom)
  {
    r := SetAsWritten("", NAME_MAX_LEN);
  }

  /** Likewise Description() is Description(""), which as written throws. */
  method DefaultDescriptionAsWritten() returns (r: Result<string>)
    ensures r == Err(NotEnoughRoom)
  {
    r := SetAsWritten("", DESCRIPTION_MAX_LEN);
  }

  /** As written, Set on a blank 32-column name field, such as a replay with no name
      holds, throws. */
  method BlankNameFieldAsWritten() returns (r: Result<string>)
    ensures r == Err(NotEnoughRoom)
  {
    var spaces := Repeat(' ', NAME_MAX_LEN);
    AllSpacesTrimToEmpty(spaces);
    r := SetAsWritten(spaces, NAME_MAX_LEN);
  }

  /** The replay name: at most NAME_MAX_LEN codepoints, stored trimmed and upper-cased. */
  class Name {
    var name: string
    var len: int

    ghost predicate Valid()
      reads this
    {
      len == |name| && |name| <= NAME_MAX_LEN && IsNormalized(name)
    }

    /** Name(): the empty name. */
    constructor Default()
      ensures Valid() && name == "" && len == 0
    {
      name, len := "", 0;
    }

    /** Name(s): Set(s) on a new object, throwing when Set throws. */
    static method New(s: string) returns (r: Result<Name>)
      ensures r.Ok? <==> |Normalized(s)| <= NAME_MAX_LEN
      ensures r.Err? ==> r.error == TextTooLong(|Normalized(s)|, NAME_MAX_LEN)
      ensures r.Ok? ==> fresh(r.value) && r.value.Valid() && r.value.name == Normalized(s)
    {
      var n := new Name.Default();
      var outcome := n.Set(s);
      if outcome.Fail? {
        return Err(outcome.error);
      }
      return Ok(n);
    }

    /** Set: store the normalised text and its codepoint count, or throw std::length_error
        and leave the name as it was when the normalised text is too long. */
    method Set(s: string) returns (r: Outcome)
      modifies this
      ensures r.Pass? <==> |Normalized(s)| <= NAME_MAX_LEN
      ensures r.Fail? ==> r.error == TextTooLong(|Normalized(s)|, NAME_MAX_LEN)
      ensures r.Pass? ==> Valid() && name == Normalized(s) && len == |name|
      ensures r.Fail? ==> name == old(name) && len == old(len)
    {
      var temp := Normalize(s);
      NormalizedIsNormalized(s);
      var n := |temp|;
      if n > NAME_MAX_LEN {
        return Fail(TextTooLong(n, NAME_MAX_LEN));
      }
      name, len := temp, n;
      return Pass;
    }

    /** ToString: the stored name, which is trimmed, upper-cased and `len` codepoints long. */
    function ToString(): (r: string)
      reads this
      ensures Valid() ==> IsNormalized(r) && |r| == len <= NAME_MAX_LEN
      ensures Valid() ==> Serialize()[..len] == r
    {
      name
    }

    /** Serialize: the name, then spaces up to NAME_MAX_LEN codepoints; normalising it gives
        the name back. */
    function Serialize(): (r: string)
      reads this
      requires Valid()
      ensures |r| == NAME_MAX_LEN && r[..len] == name
      ensures forall k :: len <= k < NAME_MAX_LEN ==> r[k] == ' '
      ensures Normalized(r) == name
    {
      PaddedRoundTrip(name, NAME_MAX_LEN);
      name + Repeat(' ', NAME_MAX_LEN - len)
    }
  }

  /** The replay description: at most DESCRIPTION_MAX_LEN codepoints, stored trimmed and
      upper-cased. */
  class Description {
    var description: string
    var len: int

    ghost predicate Valid()
      reads this
    {
      len == |description| && |description| <= DESCRIPTION_MAX_LEN && IsNormalized(description)
    }

    /** Description(): the empty description. */
    constructor Default()
      ensures Valid() && description == "" && len == 0
    {
      description, len := "", 0;
    }

    /** Description(s): Set(s) on a new object, throwing when Set throws. */
    static method New(s: string) returns (r: Result<Description>)
      ensures r.Ok? <==> |Normalized(s)| <= DESCRIPTION_MAX_LEN
      ensures r.Err? ==> r.error == TextTooLong(|Normalized(s)|, DESCRIPTION_MAX_LEN)
      ensures r.Ok? ==> fresh(r.value) && r.value.Valid() && r.value.description == Normalized(s)
    {
      var d := new Description.Default();
      var outcome := d.Set(s);
      if outcome.Fail? {
        return Err(outcome.error);
      }
      return Ok(d);
    }

    /** Set: as Name::Set, with the limit DESCRIPTION_MAX_LEN. */
    method Set(s: string) returns (r: Outcome)
      modifies this
      ensures r.Pass? <==> |Normalized(s)| <= DESCRIPTION_MAX_LEN
      ensures r.Fail? ==> r.error == TextTooLong(|Normalized(s)|, DESCRIPTION_MAX_LEN)
      ensures r.Pass? ==> Valid() && description == Normalized(s) && len == |description|
      ensures r.Fail? ==> description == old(description) && len == old(len)
    {
      var temp := Normalize(s);
      NormalizedIsNormalized(s);
      var n := |temp|;
      if n > DESCRIPTION_MAX_LEN {
        return Fail(TextTooLong(n, DESCRIPTION_MAX_LEN));
      }
      description, len := temp, n;
      return Pass;
    }

    /** ToString: the stored description, which is trimmed, upper-cased and `len`
        codepoints long. */
    function ToString(): (r: string)
      reads this
      ensures Valid() ==> IsNormalized(r) && |r| == len <= DESCRIPTION_MAX_LEN
      ensures Valid() ==> Serialize()[..len] == r
    {
      description
    }

    /** Serialize: the description, then spaces up to DESCRIPTION_MAX_LEN codepoints;
        normalising it gives the description back. */
    function Serialize(): (r: string)
      reads this
      requires Valid()
      ensures |r| == DESCRIPTION_MAX_LEN && r[..len] == description
      ensures forall k :: len <= k < DESCRIPTION_MAX_LEN ==> r[k] == ' '
      ensures Normalized(r) == description
    {
      PaddedRoundTrip(description, DESCRIPTION_MAX_LEN);
      description + Repeat(' ', DESCRIPTION_MAX_LEN - len)
    }
  }

  // ----- GameLength -----

  type FrameCount = f: int | GAME_LENGTH_MIN <= f <= GAME_LENGTH_MAX

  /** A match duration in frames (60 per second). */
  datatype GameLength = GameLength(frames: FrameCount)
  {
    /** GetFrames: the frame count, in range, and what the serialised field reads back as. */
    function GetFrames(): (r: int)
      ensures GAME_LENGTH_MIN <= r <= GAME_LENGTH_MAX
      ensures StoLL(Serialize()) == Ok(r)
    {
      frames
    }

    /** ToString: whole minutes, ':', then the seconds within the minute on two columns.
        Reading the two numbers back brackets the frame count to the second. */
    function ToString(): (r: string)
      ensures |r| >= 4 && r[|r| - 3] == ':'
      ensures AllDigits(r[..|r| - 3]) && AllDigits(r[|r| - 2..])
      ensures var minutes, seconds := DigitsValue(r[..|r| - 3]), DigitsValue(r[|r| - 2..]);
              seconds < 60 && 60 * (60 * minutes + seconds) <= frames < 60 * (60 * minutes + seconds) + 60
    {
      var totalSeconds := frames / 60;
      var minutes := totalSeconds / 60;
      var seconds := totalSeconds % 60;
      var m, s := IntToText(minutes), AlignRight(IntToText(seconds), '0', 2);
      NatToTextValue(minutes);
      ZeroPaddedValue(seconds, 2);
      var r := m + ":" + s;
      assert r[..|r| - 3] == m && r[|r| - 2..] == s;
      r
    }

    /** Serialize: six zero-filled digits whose value is the frame count. */
    function Serialize(): (r: string)
      ensures |r| == 6 && AllDigits(r) && StoLL(r) == Ok(frames)
    {
      ZeroPaddedValue(frames, 6);
      ZeroPaddedReadBack(frames, 6);
      AlignRight(IntToText(frames), '0', 6)
    }
  }

  /** GameLength(frames): reject a negative count, then one above GAME_LENGTH_MAX. */
  function NewGameLength(frames: int): (r: Result<GameLength>)
    ensures r.Ok? <==> GAME_LENGTH_MIN <= frames <= GAME_LENGTH_MAX
    ensures r.Ok? ==> r.value.frames == frames
    ensures frames < GAME_LENGTH_MIN ==> r == Err(NegativeGameLength(frames))
    ensures GAME_LENGTH_MAX < frames ==> r == Err(GameLengthTooBig(frames))
  {
    if frames < GAME_LENGTH_MIN then Err(NegativeGameLength(frames))
    else if frames > GAME_LENGTH_MAX then Err(GameLengthTooBig(frames))
    else Ok(GameLength(frames))
  }

  /** GameLength(): zero frames. */
  const DEFAULT_GAME_LENGTH: GameLength := GameLength(0)

  // ----- MatchType -----

  /** The kind of match and whether it was a team match. The kind is kept as the enum's
      underlying integer, which may lie outside the four named values. */
  datatype MatchType = MatchType(typeValue: int, isTeamMatch: bool)
  {
    /** ToString: the display name; "Local Team" for a local team match; std::out_of_range
        for an unnamed kind. */
    function ToString(): (r: Result<string>)
      ensures r.Err? <==> MatchKindOf(typeValue).None?
      ensures r.Err? ==> r.error == MatchTypeOutOfRange(typeValue)
      ensures r == Ok("Local Team") <==> typeValue == MatchKindValue(Local) && isTeamMatch
    {
      if isTeamMatch && MatchKindOf(typeValue) == Some(Local) then Ok("Local Team")
      else match MatchKindOf(typeValue)
        case Some(Local) => Ok("Local")
        case Some(OnlineCasual) => Ok("Online Casual")
        case Some(Friendly) => Ok("Friendly")
        case Some(Ranked) => Ok("Ranked")
        case None => Err(MatchTypeOutOfRange(typeValue))
    }

    /** SerializeType: the decimal text of the kind; a single digit, read back as the kind's
        value, for each named kind. */
    function SerializeType(): (r: string)
      ensures MatchKindOf(typeValue).Some? ==> |r| == 1 && IsDigit(r[0]) && StoLL(r) == Ok(typeValue)
    {
      if 0 <= typeValue < 10 then
        ZeroPaddedReadBack(typeValue, 1);
        IntToText(typeValue)
      else
        IntToText(typeValue)
    }

    /** SerializeIsTeamMatch: "1" for a team match, "0" otherwise. */
    function SerializeIsTeamMatch(): (r: string)
      ensures |r| == 1 && IsDigit(r[0])
      ensures StoLL(r) == Ok(if isTeamMatch then 1 else 0)
    {
      var r := if isTeamMatch then "1" else "0";
      StoLLDigits(r);
      r
    }
  }

  /** The team flag changes the display name of a local match only. */
  lemma TeamFlagOnlyForLocal(m: MatchType)
    ensures m.typeValue != MatchKindValue(Local) ==>
              m.ToString() == m.(isTeamMatch := !m.isTeamMatch).ToString()
  {
  }

  /** The default-constructed values are within their ranges: version 0.0.0.0 and the empty
      name and description (their constructors' contracts), all-zero date and time, and a
      zero game length, each with full-width wire text. */
  lemma DefaultsFitColumns()
    ensures DEFAULT_DATE_TIME.FitsColumns() && DEFAULT_DATE_TIME.Serialize() == "00000000000000"
    ensures DEFAULT_GAME_LENGTH.Serialize() == "000000"
  {
    ZeroPaddedZero(2);
    ZeroPaddedZero(4);
    ZeroPaddedZero(6);
    assert Repeat('0', 2) == "00" && Repeat('0', 4) == "0000" && Repeat('0', 6) == "000000";
  }
}
