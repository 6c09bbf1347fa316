/** When the backup scheduler runs: daily cron expressions, in UTC milliseconds. */
module BackupSchedule {
  import opened Outcomes
  import opened Text
  import opened Decimals

  const MINUTE := 60000
  const HOUR := 60 * MINUTE
  const DAY := 24 * HOUR

  // The maximal runs of non-space characters: trim, then split on /\s+/. A blank expression is one
  // empty field.
  function Words(s: string, word: string): seq<string> {
    if s == "" then if word == "" then [] else [word]
    else if IsSpace(s[0]) then (if word == "" then [] else [word]) + Words(s[1..], "")
    else Words(s[1..], word + [s[0]])
  }

  function FieldsOf(expression: string): seq<string> {
    var words := Words(expression, "");
    if words == [] then [""] else words
  }

  function Digits(s: string): string {
    if s == "" || !IsDigit(s[0]) then "" else [s[0]] + Digits(s[1..])
  }

  lemma {:induction false} DigitsOnly(s: string)
    ensures forall i | 0 <= i < |Digits(s)| :: IsDigit(Digits(s)[i])
  {
    if s != "" {
      DigitsOnly(s[1..]);
    }
  }

  // parseInt(s, 10) of a field without leading white space; None is NaN.
  function ParseInt(s: string): Option<int> {
    var signed := s != "" && (s[0] == '-' || s[0] == '+');
    var digits := Digits(if signed then s[1..] else s);
    DigitsOnly(if signed then s[1..] else s);
    if digits == "" then None else Some(if signed && s[0] == '-' then -(Value(digits) as int) else Value(digits))
  }

  // A number is read exactly from a sign, if any, the digits after it, as many as there are, and anything else.
  lemma ParseIntExactly(s: string, value: int)
    ensures ParseInt(s) == Some(value) <==> exists sign, digits, rest :: Numeral(s, sign, digits, rest, value)
  {
    hide Numeral;
    if ParseInt(s) == Some(value) {
      ReadNumeral(s);
    }
    if sign, digits, rest :| Numeral(s, sign, digits, rest, value) {
      NumeralRead(s, sign, digits, rest, value);
    }
  }

  lemma ReadNumeral(s: string)
    requires ParseInt(s).Some?
    ensures exists sign, digits, rest :: Numeral(s, sign, digits, rest, ParseInt(s).value)
  {
    hide Digits;
    var signed := s != "" && (s[0] == '-' || s[0] == '+');
    var sign, tail := if signed then [s[0]] else "", if signed then s[1..] else s;
    DigitsSplit(tail);
    DigitsOnly(tail);
    var rest := tail[|Digits(tail)|..];
    assert s == sign + tail && tail == Digits(tail) + rest;
    assert s == sign + Digits(tail) + rest;
    assert Numeral(s, sign, Digits(tail), rest, ParseInt(s).value);
  }

  lemma NumeralRead(s: string, sign: string, digits: string, rest: string, value: int)
    requires Numeral(s, sign, digits, rest, value)
    ensures ParseInt(s) == Some(value)
  {
    hide Digits;
    var tail := digits + rest;
    assert s == sign + tail && tail[0] == digits[0];
    if sign == "" {
      assert s == tail && IsDigit(s[0]);
    } else {
      assert s[0] == sign[0] && s[1..] == tail;
    }
    DigitsAre(digits, rest);
  }

  ghost predicate Numeral(s: string, sign: string, digits: string, rest: string, value: int) {
    && s == sign + digits + rest && (sign == "" || sign == "+" || sign == "-")
    && digits != "" && (forall i | 0 <= i < |digits| :: IsDigit(digits[i])) && (rest == "" || !IsDigit(rest[0]))
    && value == if sign == "-" then -(Value(digits) as int) else Value(digits)
  }

  lemma {:induction false} DigitsSplit(s: string)
    ensures var n := |Digits(s)|;
      n <= |s| && s[..n] == Digits(s) && (n < |s| ==> !IsDigit(s[n]))
  {
    if s != "" && IsDigit(s[0]) {
      DigitsSplit(s[1..]);
    }
  }

  lemma {:induction false} DigitsAre(digits: string, rest: string)
    requires (forall i | 0 <= i < |digits| :: IsDigit(digits[i])) && (rest == "" || !IsDigit(rest[0]))
    ensures Digits(digits + rest) == digits
  {
    if digits == "" {
      assert digits + rest == rest;
    } else {
      assert (digits + rest)[1..] == digits[1..] + rest;
      DigitsAre(digits[1..], rest);
    }
  }

  // The words with the white space around them.
  function Spaced(gaps: seq<string>, words: seq<string>): string
    requires |gaps| == |words| + 1
  {
    if words == [] then gaps[0] else gaps[0] + words[0] + Spaced(gaps[1..], words[1..])
  }

  ghost predicate Gaps(gaps: seq<string>, words: seq<string>) {
    && |gaps| == |words| + 1 && (forall i | 0 <= i < |gaps| :: AllSpace(gaps[i]))
    && (forall i | 0 < i < |words| :: gaps[i] != "")
    && forall i | 0 <= i < |words| :: words[i] != "" && NoSpace(words[i])
  }

  ghost predicate NoSpace(s: string) {
    forall i | 0 <= i < |s| :: !IsSpace(s[i])
  }

  lemma {:induction false} WordGrows(word: string, more: string, rest: string)
    requires NoSpace(more)
    ensures Words(more + rest, word) == Words(rest, word + more)
    decreases more
  {
    hide NoSpace;
    if more == "" {
      assert more + rest == rest && word + more == word;
    } else {
      assert (more + rest)[1..] == more[1..] + rest && word + more == word + [more[0]] + more[1..];
      assert !IsSpace(more[0]) && NoSpace(more[1..]) by { RestNoSpace(more); }
      WordGrows(word + [more[0]], more[1..], rest);
    }
  }

  lemma RestNoSpace(s: string)
    requires NoSpace(s) && s != ""
    ensures !IsSpace(s[0]) && NoSpace(s[1..])
  {
  }

  lemma {:induction false} GapEnds(word: string, gap: string, rest: string)
    requires AllSpace(gap) && (gap == "" ==> word == "")
    ensures Words(gap + rest, word) == (if word == "" then [] else [word]) + Words(rest, "")
    decreases gap
  {
    if gap == "" {
      assert gap + rest == rest;
      assert [] + Words(rest, "") == Words(rest, "");
    } else {
      assert (gap + rest)[1..] == gap[1..] + rest;
      GapEnds("", gap[1..], rest);
    }
  }

  lemma {:induction false} WordsSpaced(gaps: seq<string>, words: seq<string>)
    requires Gaps(gaps, words)
    ensures Words(Spaced(gaps, words), "") == words
  {
    hide IsSpace, AllSpace, NoSpace;
    if words == [] {
      GapEnds("", gaps[0], "");
      assert gaps[0] + "" == gaps[0];
    } else {
      var rest := Spaced(gaps[1..], words[1..]);
      assert Spaced(gaps, words) == gaps[0] + (words[0] + rest);
      GapEnds("", gaps[0], words[0] + rest);
      WordGrows("", words[0], rest);
      assert "" + words[0] == words[0] && [] + Words(rest, words[0]) == Words(rest, words[0]);
      assert Gaps(gaps[1..], words[1..]);
      WordsSpaced(gaps[1..], words[1..]);
      WordThenRest(words[0], gaps[1..], words[1..]);
    }
  }

  // The fields are read back from any text made of words and white space between them; a blank text has
  // one empty field.
  lemma FieldsExactly(gaps: seq<string>, words: seq<string>)
    requires Gaps(gaps, words)
    ensures FieldsOf(Spaced(gaps, words)) == if words == [] then [""] else words
  {
    WordsSpaced(gaps, words);
  }

  lemma WordThenRest(word: string, gaps: seq<string>, words: seq<string>)
    requires word != "" && Gaps(gaps, words) && (words != [] ==> gaps[0] != "")
    ensures Words(Spaced(gaps, words), word) == [word] + Words(Spaced(gaps, words), "")
  {
    var rest := if words == [] then "" else words[0] + Spaced(gaps[1..], words[1..]);
    assert Spaced(gaps, words) == gaps[0] + rest;
    if gaps[0] == "" {
      assert Words("", word) == [word] && Words("", "") == [];
    } else {
      GapEnds(word, gaps[0], rest);
      GapEnds("", gaps[0], rest);
    }
  }

  datatype CronError = FieldCount(count: nat) | NotDaily(index: nat) | BadField(field: string)

  function ParseCronField(field: string, min: int, max: int): (r: Result<int, CronError>)
    requires min <= max
    ensures r.Ok? ==> min <= r.value <= max
  {
    if field == "*" then Ok(min)
    else
      match ParseInt(field)
      case None => Err(BadField(field))
      case Some(value) => if min <= value <= max then Ok(value) else Err(BadField(field))
  }

  // The slot a daily expression names, as milliseconds after midnight.
  function ParseSlot(expression: string): (r: Result<int, CronError>)
    ensures r.Ok? ==> 0 <= r.value < DAY
  {
    var fields := FieldsOf(expression);
    if |fields| != 5 then Err(FieldCount(|fields|))
    else if fields[2] != "*" then Err(NotDaily(2))
    else if fields[3] != "*" then Err(NotDaily(3))
    else if fields[4] != "*" then Err(NotDaily(4))
    else
      match (ParseCronField(fields[0], 0, 59), ParseCronField(fields[1], 0, 23))
      case (Err(e), _) => Err(e)
      case (_, Err(e)) => Err(e)
      case (Ok(minute), Ok(hour)) => Ok(hour * HOUR + minute * MINUTE)
  }

  // A field means this value: a star the least one, a number itself if it is in range.
  ghost predicate Means(field: string, max: int, value: int) {
    if field == "*" then value == 0 else ParseInt(field) == Some(value) && 0 <= value <= max
  }

  // The slot of an expression, and every way to be refused, by its fields alone.
  lemma SlotExactly(expression: string)
    ensures var fields, r := FieldsOf(expression), ParseSlot(expression);
      var five := |fields| == 5;
      && (forall n: nat :: r == Err(FieldCount(n)) <==> n == |fields| && !five)
      && (forall k: nat :: r == Err(NotDaily(k)) <==>
            five && 2 <= k <= 4 && fields[k] != "*" && forall j | 2 <= j < k :: fields[j] == "*")
      && (forall f :: r == Err(BadField(f)) <==>
            && five && fields[2] == fields[3] == fields[4] == "*"
            && ((f == fields[0] && forall v :: !Means(f, 59, v))
                || (f == fields[1] && (exists v :: Means(fields[0], 59, v)) && forall v :: !Means(f, 23, v))))
      && (forall slot :: r == Ok(slot) <==>
            && five && fields[2] == fields[3] == fields[4] == "*"
            && exists minute, hour ::
                 Means(fields[0], 59, minute) && Means(fields[1], 23, hour) && slot == hour * 3600000 + minute * 60000)
  {
    hide FieldsOf, ParseInt;
    var fields := FieldsOf(expression);
    if |fields| == 5 {
      FieldMeans(fields[0], 59);
      FieldMeans(fields[1], 23);
    }
    hide ParseCronField, Means;
  }

  lemma FieldMeans(field: string, max: int)
    requires 0 <= max
    ensures forall v :: ParseCronField(field, 0, max) == Ok(v) <==> Means(field, max, v)
    ensures ParseCronField(field, 0, max).Err? ==> ParseCronField(field, 0, max).error == BadField(field)
  {
  }

  // A Date, changed in place field by field as the source does.
  class Date {
    var time: int

    constructor (time: int)
      ensures this.time == time
    {
      this.time := time;
    }

    method SetUTCSeconds()
      modifies this
      ensures time == old(time) / MINUTE * MINUTE
    {
      time := time / MINUTE * MINUTE;
    }

    method SetUTCMinutes(minute: int)
      modifies this
      ensures time == old(time) / HOUR * HOUR + minute * MINUTE + old(time) % MINUTE
    {
      time := time / HOUR * HOUR + minute * MINUTE + time % MINUTE;
    }

    method SetUTCHours(hour: int)
      modifies this
      ensures time == old(time) / DAY * DAY + hour * HOUR + old(time) % HOUR
    {
      time := time / DAY * DAY + hour * HOUR + time % HOUR;
    }

    method AddUTCDays(days: int)
      modifies this
      ensures time == old(time) + days * DAY
    {
      time := time + days * DAY;
    }
  }

  lemma SlotOfDay(day: int, slot: int)
    requires 0 <= slot < DAY
    ensures (day * DAY + slot) % DAY == slot && (day * DAY + slot) / DAY == day
  {
  }

  // The first run strictly after `from`: a run at the very instant is a day away.
  method NextScheduledTime(expression: string, from: int) returns (r: Result<int, CronError>)
    ensures ParseSlot(expression).Err? ==> r == Err(ParseSlot(expression).error)
    ensures ParseSlot(expression).Ok? ==>
      && r.Ok? && from < r.value <= from + DAY && r.value % DAY == ParseSlot(expression).value
      && forall t | from < t && t % DAY == ParseSlot(expression).value :: r.value <= t
  {
    var parsed := ParseSlot(expression);
    if parsed.Err? {
      return Err(parsed.error);
    }
    SlotParts(expression);
    var fields := FieldsOf(expression);
    var minute, hour := ParseCronField(fields[0], 0, 59).value, ParseCronField(fields[1], 0, 23).value;
    hide ParseSlot, ParseCronField, FieldsOf;
    var candidate := new Date(from);
    candidate.SetUTCSeconds();
    candidate.SetUTCMinutes(minute);
    candidate.SetUTCHours(hour);
    DateAtSlot(from, minute, hour);
    if candidate.time <= from {
      candidate.AddUTCDays(1);
    }
    FirstSlot(from, parsed.value);
    return Ok(candidate.time);
  }

  lemma SlotParts(expression: string)
    requires ParseSlot(expression).Ok?
    ensures var fields := FieldsOf(expression);
      && |fields| == 5 && ParseCronField(fields[0], 0, 59).Ok? && ParseCronField(fields[1], 0, 23).Ok?
      && ParseSlot(expression).value
           == ParseCronField(fields[1], 0, 23).value * HOUR + ParseCronField(fields[0], 0, 59).value * MINUTE
  {
    hide ParseCronField, FieldsOf;
  }

  // Clearing the seconds, then setting minute and hour, gives the slot of the same day.
  lemma DateAtSlot(from: int, minute: int, hour: int)
    requires 0 <= minute <= 59 && 0 <= hour <= 23
    ensures var cleared := from / MINUTE * MINUTE;
      var moved := cleared / HOUR * HOUR + minute * MINUTE + cleared % MINUTE;
      moved / DAY * DAY + hour * HOUR + moved % HOUR == from / DAY * DAY + hour * HOUR + minute * MINUTE
  {
    SecondsCleared(from);
    MinuteSet(from, minute * MINUTE);
  }

  lemma SecondsCleared(from: int)
    ensures (from / MINUTE * MINUTE) / HOUR == from / HOUR && (from / MINUTE * MINUTE) % MINUTE == 0
  {
    var minutes := from / MINUTE;
    assert from == minutes * MINUTE + from % MINUTE;
    var hours, rest := minutes / 60, minutes % 60;
    assert minutes * MINUTE == hours * HOUR + rest * MINUTE;
    QuotientOf(hours, rest * MINUTE);
    QuotientOf(hours, rest * MINUTE + from % MINUTE);
  }

  lemma QuotientOf(hours: int, rest: int)
    requires 0 <= rest < HOUR
    ensures (hours * HOUR + rest) / HOUR == hours && (hours * HOUR + rest) % HOUR == rest
  {
  }

  lemma MinuteSet(from: int, within: int)
    requires 0 <= within < HOUR
    ensures (from / HOUR * HOUR + within) / DAY == from / DAY && (from / HOUR * HOUR + within) % HOUR == within
  {
    var hours := from / HOUR;
    var day, hour := hours / 24, hours % 24;
    QuotientOf(hours, within);
    assert from == day * DAY + (hour * HOUR + from % HOUR);
    assert hours * HOUR + within == day * DAY + (hour * HOUR + within);
    SlotOfDay(day, hour * HOUR + from % HOUR);
    SlotOfDay(day, hour * HOUR + within);
  }

  lemma FirstSlot(from: int, slot: int)
    requires 0 <= slot < DAY
    ensures var today := from / DAY * DAY + slot;
      var next := if today <= from then today + DAY else today;
      && from < next <= from + DAY && next % DAY == slot
      && forall t | from < t && t % DAY == slot :: next <= t
  {
    SlotOfDay(from / DAY, slot);
    SlotOfDay(from / DAY + 1, slot);
    forall t | from < t && t % DAY == slot
      ensures t >= from / DAY * DAY + slot
      ensures from / DAY * DAY + slot <= from ==> t >= from / DAY * DAY + slot + DAY
    {
      LaterSlot(from, slot, t);
    }
  }

  lemma LaterSlot(from: int, slot: int, t: int)
    requires 0 <= slot < DAY && from < t && t % DAY == slot
    ensures t >= from / DAY * DAY + slot
    ensures from / DAY * DAY + slot <= from ==> t >= (from / DAY + 1) * DAY + slot
  {
    assert t == t / DAY * DAY + slot && t / DAY >= from / DAY;
  }

  // A tick that starts on time is followed by the next one a day later, however long it ran within
  // that day.
  lemma NextTick(slot: int, start: int, next: int, from: int)
    requires 0 <= slot < DAY && start % DAY == slot && start <= from < start + DAY
    requires from < next <= from + DAY && next % DAY == slot
    ensures next == start + DAY
  {
    assert next == next / DAY * DAY + slot && start == start / DAY * DAY + slot;
  }
}
