/** The recurring generation schedule (`startAutoGeneration`, `checkAndGenerate`,
    `updateNextGenerationTime` and `handleMinutesChange` in `src/App.tsx`). A wall-clock reading
    is the number of milliseconds since local midnight of a plain 24-hour day; the timer is a
    sequence of readings, one per check. */
module Schedule {
  import opened Wrappers
  import opened Text
  import opened HourSet

  const MinuteMs := 60000
  const HourMs := 3600000
  const DayMs := 86400000

  /** The checking period of the armed schedule. */
  const CheckIntervalMs := 60000

  type TimeOfDay = t: int | 0 <= t < 86400000

  function HourOf(t: TimeOfDay): (h: int)
    ensures 0 <= h < 24
  {
    t / HourMs
  }

  function MinuteOf(t: TimeOfDay): (m: int)
    ensures 0 <= m < 60
  {
    (t % HourMs) / MinuteMs
  }

  /** The reading at `h`:`m`:`s`.000. */
  function At(h: int, m: int, s: int): (t: TimeOfDay)
    requires 0 <= h < 24 && 0 <= m < 60 && 0 <= s < 60
    ensures HourOf(t) == h && MinuteOf(t) == m
  {
    ClockFields(h, m, s * 1000);
    h * HourMs + m * MinuteMs + s * 1000
  }

  /** Reading hour and minute back from a time built from them. */
  lemma ClockFields(h: int, m: int, rest: int)
    requires 0 <= h < 24 && 0 <= m < 60 && 0 <= rest < MinuteMs
    ensures var t := h * HourMs + m * MinuteMs + rest;
      0 <= t < DayMs && t / HourMs == h && (t % HourMs) / MinuteMs == m
  {
    var t := h * HourMs + m * MinuteMs + rest;
    assert t % HourMs == m * MinuteMs + rest;
  }

  /** A time within two days, folded back onto one day. */
  lemma WrapDay(t: int)
    requires 0 <= t < 2 * DayMs
    ensures t % DayMs == if t >= DayMs then t - DayMs else t
  {
  }

  /** The start of the minute a reading falls in, split into its hour and minute. */
  lemma ClockSplit(t: TimeOfDay)
    ensures HourOf(t) * HourMs + MinuteOf(t) * MinuteMs <= t < HourOf(t) * HourMs + MinuteOf(t) * MinuteMs + MinuteMs
  {
  }

  // ---------------------------------------------------------------- minutes field

  /** `handleMinutesChange`: the field takes the new text only when it is empty or parses to a
      minute 0..59; any other text is ignored. */
  predicate MinutesAccepted(value: string)
  {
    value == "" || (ParseInt(value).Some? && 0 <= ParseInt(value).value < 60)
  }

  function MinutesChange(current: string, value: string): (r: string)
    ensures r == value || r == current
    ensures r == value <==> MinutesAccepted(value) || value == current
  {
    if MinutesAccepted(value) then value else current
  }

  /** `parseInt(minutes) || 0`: the minute the scheduler aims at; empty or unparsable text
      reads as 0. */
  function TargetMinute(minutes: string): int
  {
    match ParseInt(minutes)
    case None => 0
    case Some(v) => v
  }

  /** Whatever the field holds after any series of edits from its initial "00", the target
      minute is a real minute. */
  lemma {:induction false} MinutesFieldStaysValid(current: string, edits: seq<string>)
    requires MinutesAccepted(current)
    ensures MinutesAccepted(EditAll(current, edits))
    ensures 0 <= TargetMinute(EditAll(current, edits)) < 60
    decreases |edits|
  {
    if |edits| > 0 {
      MinutesFieldStaysValid(MinutesChange(current, edits[0]), edits[1..]);
    } else if current == "" {
      assert ParseInt(current) == None;
    }
  }

  function EditAll(current: string, edits: seq<string>): string
    decreases |edits|
  {
    if |edits| == 0 then current else EditAll(MinutesChange(current, edits[0]), edits[1..])
  }

  // ---------------------------------------------------------------- next slot

  /** `hours.find(h => h > current)`: the first listed hour after `current`. */
  function FindAfter(hours: seq<int>, current: int): (r: Option<int>)
    ensures r.Some? ==> r.value in hours && r.value > current
    ensures r.None? <==> forall x :: x in hours ==> x <= current
    ensures StrictlySorted(hours) && r.Some? ==> forall x :: x in hours && x > current ==> r.value <= x
  {
    if |hours| == 0 then None
    else if hours[0] > current then Some(hours[0])
    else
      var r := FindAfter(hours[1..], current);
      assert forall x :: x in hours ==> x == hours[0] || x in hours[1..];
      r
  }

  /** A slot: an hour at the target minute, today or tomorrow. */
  datatype Slot = Slot(hour: int, nextDay: bool)

  /** Milliseconds from `now` to the slot. */
  function SlotDelta(s: Slot, targetMinute: int, now: TimeOfDay): int
  {
    (if s.nextDay then DayMs else 0) + s.hour * HourMs + targetMinute * MinuteMs - now
  }

  /** `updateNextGenerationTime` as written: the first listed hour after the current hour,
      else the first listed hour tomorrow. The second test (current hour chosen, minute
      passed) can only repeat that choice. */
  function NextSlotAsWritten(hours: seq<int>, targetMinute: int, now: TimeOfDay): (s: Slot)
    requires |hours| > 0
    ensures s.hour in hours
    ensures s.nextDay <==> s.hour <= HourOf(now)
  {
    var current := HourOf(now);
    var nextHour := AfterOrFirst(hours, current);
    var nextDay := nextHour <= current;
    if nextHour == current && MinuteOf(now) >= targetMinute then
      Slot(AfterOrFirst(hours, current), true)
    else Slot(nextHour, nextDay)
  }

  /** `hours.find(h => h > current) || hours[0]`: a found hour 0 is falsy and also falls back
      to the first listed hour. */
  function AfterOrFirst(hours: seq<int>, current: int): (h: int)
    requires |hours| > 0
    ensures h in hours
    ensures h > current && h != 0 <==> FindAfter(hours, current).Some? && FindAfter(hours, current).value != 0
  {
    match FindAfter(hours, current)
    case Some(h) => if h != 0 then h else hours[0]
    case None => hours[0]
  }

  /** The rule as written, on a sorted list of hours: the smallest listed hour after the
      current hour, today; when there is none, the first listed hour, tomorrow. The target
      minute plays no part in the choice. */
  lemma AsWrittenRule(hours: seq<int>, targetMinute: int, now: TimeOfDay)
    requires ValidHours(hours)
    ensures var s := NextSlotAsWritten(hours, targetMinute, now);
      (exists x :: x in hours && x > HourOf(now)) ==>
        && !s.nextDay && s.hour > HourOf(now)
        && forall x :: x in hours && x > HourOf(now) ==> s.hour <= x
    ensures (forall x :: x in hours ==> x <= HourOf(now)) ==>
      NextSlotAsWritten(hours, targetMinute, now) == Slot(hours[0], true)
  {
  }

  /** The slot the countdown should name: the earliest listed hour whose target minute is
      still ahead today, else the first listed hour tomorrow. */
  function NextSlot(hours: seq<int>, targetMinute: int, now: TimeOfDay): (s: Slot)
    requires |hours| > 0
    ensures s.hour in hours
    ensures !s.nextDay ==> SlotDelta(s, targetMinute, now) > 0
  {
    match FindAfter(hours, (now - targetMinute * MinuteMs) / HourMs)
    case Some(h) => Slot(h, false)
    case None => Slot(hours[0], true)
  }

  predicate ValidHours(hours: seq<int>)
  {
    |hours| > 0 && StrictlySorted(hours) && forall x :: x in hours ==> 0 <= x < 24
  }

  /** `NextSlot` names the earliest slot strictly after `now`, among the listed hours today and
      tomorrow, and lies at most one day ahead. */
  lemma NextSlotIsEarliest(hours: seq<int>, targetMinute: int, now: TimeOfDay, h: int, nextDay: bool)
    requires ValidHours(hours) && 0 <= targetMinute < 60
    requires h in hours && SlotDelta(Slot(h, nextDay), targetMinute, now) > 0
    ensures 0 < SlotDelta(NextSlot(hours, targetMinute, now), targetMinute, now) <= DayMs
    ensures SlotDelta(NextSlot(hours, targetMinute, now), targetMinute, now) <= SlotDelta(Slot(h, nextDay), targetMinute, now)
  {
    var c := (now - targetMinute * MinuteMs) / HourMs;
    var s := NextSlot(hours, targetMinute, now);
    assert c * HourMs <= now - targetMinute * MinuteMs < c * HourMs + HourMs;
    assert hours[0] in hours;
    if FindAfter(hours, c).None? {
      assert hours[0] <= c && h <= c;
      assert forall x :: x in hours ==> hours[0] <= x by {
        forall x | x in hours ensures hours[0] <= x {
          var i :| 0 <= i < |hours| && hours[i] == x;
          assert i == 0 || hours[0] < hours[i];
        }
      }
    }
  }

  // ---------------------------------------------------------------- countdown

  /** JavaScript `a % b` for a positive `b`: the remainder takes the sign of `a`. */
  function JsRem(a: int, b: int): int
    requires b > 0
  {
    if a >= 0 then a % b else -((-a) % b)
  }

  datatype Countdown = Countdown(hours: int, minutes: int)

  /** `Math.floor(d / 3600000)` and `Math.floor((d % 3600000) / 60000)`: whole hours, then
      whole minutes of the remainder. */
  function CountdownOf(delta: int): (c: Countdown)
    ensures delta >= 0 ==> 0 <= c.minutes < 60
    ensures delta >= 0 ==> c.hours * HourMs + c.minutes * MinuteMs <= delta < c.hours * HourMs + (c.minutes + 1) * MinuteMs
  {
    Countdown(delta / HourMs, JsRem(delta, HourMs) / MinuteMs)
  }

  /** The text shown: `${hours}h ${minutes}m`. */
  function CountdownText(c: Countdown): string
  {
    IntString(c.hours) + "h " + IntString(c.minutes) + "m"
  }

  /** As written, the countdown is strictly positive and under 25 hours, so it reports 0..24
      hours and 0..59 minutes. */
  lemma AsWrittenCountdownBounds(hours: seq<int>, targetMinute: int, now: TimeOfDay)
    requires |hours| > 0 && (forall x :: x in hours ==> 0 <= x < 24) && 0 <= targetMinute < 60
    ensures var d := SlotDelta(NextSlotAsWritten(hours, targetMinute, now), targetMinute, now);
      0 < d < DayMs + HourMs
    ensures var c := CountdownOf(SlotDelta(NextSlotAsWritten(hours, targetMinute, now), targetMinute, now));
      0 <= c.hours <= 24 && 0 <= c.minutes < 60
  {
    var s := NextSlotAsWritten(hours, targetMinute, now);
    assert HourOf(now) * HourMs <= now < HourOf(now) * HourMs + HourMs;
  }

  // ---------------------------------------------------------------- ticks

  /** Whether a check at `t` fires: the current hour is listed and the current minute is the
      target minute (an exact match; a late check does not catch up). */
  predicate Fires(hours: seq<int>, targetMinute: int, t: TimeOfDay)
  {
    HourOf(t) in hours && MinuteOf(t) == targetMinute
  }

  /** What one check does: start a generation run, show a countdown, or raise an error. */
  datatype TickAction = Generate | ShowCountdown(countdown: Countdown) | Threw

  /** `checkAndGenerate` as written: a check that fires starts a run; any other check calls
      `updateNextGenerationTime`, whose first read of `minutes` (src/App.tsx:91) comes before
      that function's own `const minutes` (src/App.tsx:109) is initialised, so it raises a
      ReferenceError before any countdown is computed. */
  function Tick(hours: seq<int>, minutes: string, now: TimeOfDay): (a: TickAction)
    ensures a == Generate <==> Fires(hours, TargetMinute(minutes), now)
    ensures a != Generate ==> a == Threw
  {
    if HourOf(now) in hours && MinuteOf(now) == TargetMinute(minutes) then Generate else Threw
  }

  /** The check as evidently intended: the same firing decision, and otherwise a countdown that
      reads the state's minutes and names the earliest listed slot strictly after now. */
  function TickIntended(hours: seq<int>, minutes: string, now: TimeOfDay): (a: TickAction)
    requires |hours| > 0
    ensures a == Generate <==> Fires(hours, TargetMinute(minutes), now)
    ensures a != Generate ==> a.ShowCountdown?
  {
    var tm := TargetMinute(minutes);
    if HourOf(now) in hours && MinuteOf(now) == tm then Generate
    else ShowCountdown(CountdownOf(SlotDelta(NextSlot(hours, tm, now), tm, now)))
  }

  /** The program's check and the intended one take the same firing decision; where the
      intended check shows a countdown, the program's raises an error. */
  lemma TickAgreesOnFiring(hours: seq<int>, minutes: string, now: TimeOfDay)
    requires |hours| > 0
    ensures Tick(hours, minutes, now) == Generate <==> TickIntended(hours, minutes, now) == Generate
    ensures TickIntended(hours, minutes, now).ShowCountdown? <==> Tick(hours, minutes, now) == Threw
  {
  }

  /** With the intended rule the countdown names the next check that fires: a check at the named
      instant fires, and no check strictly between now and then does (times past midnight wrap
      to the next day). */
  lemma CountdownNamesNextFiring(hours: seq<int>, minutes: string, now: TimeOfDay)
    requires ValidHours(hours) && 0 <= TargetMinute(minutes) < 60
    requires TickIntended(hours, minutes, now).ShowCountdown?
    ensures var tm := TargetMinute(minutes);
      var target := now + SlotDelta(NextSlot(hours, tm, now), tm, now);
      && TickIntended(hours, minutes, now).countdown == CountdownOf(target - now)
      && NextFiring(hours, tm, now, target)
  {
    var tm := TargetMinute(minutes);
    var target := now + SlotDelta(NextSlot(hours, tm, now), tm, now);
    NextSlotFiresFirst(hours, tm, now);
  }

  /** `target` (counted from the start of today, past midnight meaning tomorrow) is the first
      instant after `now` within a day at which a check fires. */
  predicate NextFiring(hours: seq<int>, targetMinute: int, now: TimeOfDay, target: int)
  {
    && now < target <= now + DayMs
    && Fires(hours, targetMinute, target % DayMs)
    && forall t :: now < t < target ==> !Fires(hours, targetMinute, t % DayMs)
  }

  /** The corrected slot is the next firing: it fires, and no reading strictly before it does. */
  lemma NextSlotFiresFirst(hours: seq<int>, targetMinute: int, now: TimeOfDay)
    requires ValidHours(hours) && 0 <= targetMinute < 60
    requires !Fires(hours, targetMinute, now)
    ensures NextFiring(hours, targetMinute, now, now + SlotDelta(NextSlot(hours, targetMinute, now), targetMinute, now))
  {
    var s := NextSlot(hours, targetMinute, now);
    var target := now + SlotDelta(s, targetMinute, now);
    NextSlotIsEarliest(hours, targetMinute, now, hours[0], true);
    ClockFields(s.hour, targetMinute, 0);
    WrapDay(target);
    forall t | now < t < target
      ensures !Fires(hours, targetMinute, t % DayMs)
    {
      var u: TimeOfDay := t % DayMs;
      WrapDay(t);
      if Fires(hours, targetMinute, u) {
        var h := HourOf(u);
        ClockSplit(u);
        var start := t - u + h * HourMs + targetMinute * MinuteMs;
        var day := t >= DayMs;
        assert start == (if day then DayMs else 0) + h * HourMs + targetMinute * MinuteMs;
        if start > now {
          NextSlotIsEarliest(hours, targetMinute, now, h, day);
        } else {
          assert !day;
          ClockFields(h, targetMinute, now - start);
        }
      }
    }
  }

  /** As written, a listed current hour whose target minute is still ahead is never named: the
      countdown points past a check that will fire first. */
  lemma AsWrittenMissesCurrentHour(hours: seq<int>, targetMinute: int, now: TimeOfDay)
    requires ValidHours(hours) && 0 <= targetMinute < 60
    requires HourOf(now) in hours && MinuteOf(now) < targetMinute
    ensures SlotDelta(NextSlotAsWritten(hours, targetMinute, now), targetMinute, now)
      > SlotDelta(NextSlot(hours, targetMinute, now), targetMinute, now)
    ensures SlotDelta(NextSlot(hours, targetMinute, now), targetMinute, now)
      == SlotDelta(Slot(HourOf(now), false), targetMinute, now)
  {
    var h := HourOf(now);
    ClockSplit(now);
    NextSlotIsEarliest(hours, targetMinute, now, h, false);
  }

  /** Hours 9 and 18 at minute 30, checked at 09:15:00: the next-slot rule of lines 93-111
      gives 9h 15m although the check at 09:30 fires; the earliest-slot rule gives 0h 15m. */
  lemma NextSlotExample()
    ensures var now := At(9, 15, 0);
      && CountdownOf(SlotDelta(NextSlotAsWritten([9, 18], 30, now), 30, now)) == Countdown(9, 15)
      && CountdownOf(SlotDelta(NextSlot([9, 18], 30, now), 30, now)) == Countdown(0, 15)
      && Fires([9, 18], 30, At(9, 30, 0))
  {
    var now := At(9, 15, 0);
    assert FindAfter([9, 18], 9) == Some(18);
    assert FindAfter([9, 18], (now - 30 * MinuteMs) / HourMs) == Some(9);
  }

  // ---------------------------------------------------------------- arming

  /** The auto-generation effect, re-run whenever the switch, the hours or the minutes change
      (the previous timer is cleared first): off when the switch is off; refused without a feed
      address or without hours; otherwise the first check runs at once and, once it returns,
      the next ones every `CheckIntervalMs`. `Crashed`: the first check raised an error, which
      leaves the effect before `setInterval` is reached, so no timer is armed. */
  datatype Arming = Off | Refused(message: string) | Armed(firstCheck: TickAction, intervalMs: nat) | Crashed

  const NeedFeedMessage := "Por favor, preencha a URL do RSS para usar a Geração Automática"
  const NeedHoursMessage := "Selecione pelo menos um horário para a geração automática"

  /** Arming as written: a timer exists only when the immediate first check fires. */
  function Arm(autoGenerate: bool, rssUrl: string, hours: seq<int>, minutes: string, now: TimeOfDay): (r: Arming)
    ensures r.Off? <==> !autoGenerate
    ensures autoGenerate && rssUrl == "" ==> r == Refused(NeedFeedMessage)
    ensures autoGenerate && rssUrl != "" && |hours| == 0 ==> r == Refused(NeedHoursMessage)
    ensures r.Armed? <==> autoGenerate && rssUrl != "" && |hours| > 0 && Fires(hours, TargetMinute(minutes), now)
    ensures r.Crashed? <==> autoGenerate && rssUrl != "" && |hours| > 0 && !Fires(hours, TargetMinute(minutes), now)
    ensures r.Armed? ==> r == Armed(Generate, 60000)
  {
    if !autoGenerate then Off
    else if rssUrl == "" then Refused(NeedFeedMessage)
    else if |hours| == 0 then Refused(NeedHoursMessage)
    else
      var first := Tick(hours, minutes, now);
      if first == Generate then Armed(first, CheckIntervalMs) else Crashed
  }

  /** Arming with the intended check: whenever the switch is on with a feed address and hours,
      a timer is armed after a first check that generates or shows a countdown; it agrees with
      the program wherever the program arms or refuses. */
  function ArmIntended(autoGenerate: bool, rssUrl: string, hours: seq<int>, minutes: string, now: TimeOfDay): (r: Arming)
    ensures r.Armed? <==> autoGenerate && rssUrl != "" && |hours| > 0
    ensures r.Armed? ==> r.intervalMs == 60000 && r.firstCheck != Threw
    ensures r.Armed? ==> (r.firstCheck == Generate <==> Fires(hours, TargetMinute(minutes), now))
    ensures !Arm(autoGenerate, rssUrl, hours, minutes, now).Crashed? ==> r == Arm(autoGenerate, rssUrl, hours, minutes, now)
  {
    if !autoGenerate then Off
    else if rssUrl == "" then Refused(NeedFeedMessage)
    else if |hours| == 0 then Refused(NeedHoursMessage)
    else Armed(TickIntended(hours, minutes, now), CheckIntervalMs)
  }

  /** The field text "30" aims at minute 30. */
  lemma TargetThirty()
    ensures TargetMinute("30") == 30
  {
    assert IsDigit("30"[0]) && IsDigit("30"[1]);
    ParseIntOfDigits("30");
    assert "30"[..1] == "3";
  }

  /** Hours 9 and 18, minute 30, at 09:15:00: the program's check raises an error and arming
      then leaves no timer, where the intended check shows 0h 15m and arms the timer. */
  lemma TickThrowsUnlessFiring()
    ensures var now := At(9, 15, 0);
      && Tick([9, 18], "30", now) == Threw
      && Arm(true, "u", [9, 18], "30", now) == Crashed
      && TickIntended([9, 18], "30", now) == ShowCountdown(Countdown(0, 15))
      && ArmIntended(true, "u", [9, 18], "30", now) == Armed(ShowCountdown(Countdown(0, 15)), CheckIntervalMs)
  {
    var now := At(9, 15, 0);
    TargetThirty();
    assert FindAfter([9, 18], (now - 30 * MinuteMs) / HourMs) == Some(9);
  }

  /** The reading at the `k`-th check after arming at `armedAt` (the 0-th is the immediate one),
      with an ideal timer. */
  function CheckTime(armedAt: TimeOfDay, k: nat): TimeOfDay
  {
    (armedAt + k * CheckIntervalMs) % DayMs
  }

  /** With an ideal timer, the 1440 checks of any day visit every minute of the day exactly
      once: check `k` falls in minute-of-day `(m0 + k) mod 1440`. */
  lemma CheckMinute(armedAt: TimeOfDay, k: nat)
    ensures var t := CheckTime(armedAt, k);
      HourOf(t) * 60 + MinuteOf(t) == (armedAt / MinuteMs + k) % 1440
  {
    var q := armedAt / MinuteMs;
    var r := armedAt % MinuteMs;
    var m := (q + k) % 1440;
    var p := (q + k) / 1440;
    var x := m * MinuteMs + r;
    assert armedAt + k * CheckIntervalMs == (q + k) * MinuteMs + r;
    assert (q + k) * MinuteMs == p * DayMs + m * MinuteMs;
    assert 0 <= x < DayMs;
    assert CheckTime(armedAt, k) == x;
    ClockFields(m / 60, m % 60, r);
    assert x == (m / 60) * HourMs + (m % 60) * MinuteMs + r;
  }

  /** Two of 1440 consecutive counts never share a residue modulo 1440. */
  lemma ResiduesDistinct(q: int, k1: int, k2: int)
    requires 0 <= k1 < 1440 && 0 <= k2 < 1440 && (q + k1) % 1440 == (q + k2) % 1440
    ensures k1 == k2
  {
    var a := (q + k1) / 1440;
    var b := (q + k2) / 1440;
    assert k1 - k2 == (a - b) * 1440;
  }

  /** The count `k` below 1440 that brings `q` to residue `slot` modulo 1440. */
  lemma HitSlot(q: int, slot: int)
    requires 0 <= q && 0 <= slot < 1440
    ensures var k := (slot - q % 1440 + 1440) % 1440; 0 <= k < 1440 && (q + k) % 1440 == slot
  {
    var r := q % 1440;
    var a := q / 1440;
    var k := (slot - r + 1440) % 1440;
    if slot >= r {
      assert k == slot - r;
      assert q + k == 1440 * a + slot;
    } else {
      assert k == slot - r + 1440;
      assert q + k == 1440 * (a + 1) + slot;
    }
  }

  /** A reading falls in slot (`h`, `m`) exactly when its minute of the day is `h * 60 + m`. */
  lemma SlotMinute(t: TimeOfDay, h: int, m: int)
    requires 0 <= h < 24 && 0 <= m < 60
    ensures (HourOf(t) == h && MinuteOf(t) == m) <==> HourOf(t) * 60 + MinuteOf(t) == h * 60 + m
  {
  }

  predicate InSlot(t: TimeOfDay, h: int, m: int)
  {
    HourOf(t) == h && MinuteOf(t) == m
  }

  /** Each listed hour fires exactly once in every 1440 consecutive checks of an ideal timer. */
  lemma EachSlotFiresOncePerDay(hours: seq<int>, targetMinute: int, armedAt: TimeOfDay, h: int)
    requires h in hours && 0 <= h < 24 && 0 <= targetMinute < 60
    ensures exists k :: 0 <= k < 1440 && InSlot(CheckTime(armedAt, k), h, targetMinute)
    ensures forall k1, k2 ::
      (0 <= k1 < 1440 && 0 <= k2 < 1440
       && InSlot(CheckTime(armedAt, k1), h, targetMinute) && InSlot(CheckTime(armedAt, k2), h, targetMinute))
      ==> k1 == k2
  {
    var q := armedAt / MinuteMs;
    var slot := h * 60 + targetMinute;
    var k := (slot - q % 1440 + 1440) % 1440;
    HitSlot(q, slot);
    CheckMinute(armedAt, k);
    SlotMinute(CheckTime(armedAt, k), h, targetMinute);
    forall k1, k2 | 0 <= k1 < 1440 && 0 <= k2 < 1440
      && InSlot(CheckTime(armedAt, k1), h, targetMinute) && InSlot(CheckTime(armedAt, k2), h, targetMinute)
      ensures k1 == k2
    {
      CheckMinute(armedAt, k1);
      CheckMinute(armedAt, k2);
      ResiduesDistinct(q, k1, k2);
    }
  }
}
