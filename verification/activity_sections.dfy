/**
 * How the activities screen turns the server's day groups into list
 * sections: one section per server day, in the server's order, whose items
 * are that day's activities sorted by their "hh:mm a" label compared as
 * strings.
 *
 * Date parsing and formatting are not part of this model: instants are
 * integers, and the label and day-title formatters are the fields of
 * `DayFormat`.
 */
module ActivitySections {
  import JsString

  /** A point in time, as the server's timestamp parsed by the date library. */
  type Instant = int

  datatype ServerActivity = ServerActivity(id: string, title: string, occursAt: Instant)

  /** One day of the server's answer, with that day's activities. */
  datatype ServerDay = ServerDay(date: string, activities: seq<ServerActivity>)

  /** A list row: `hour` is the "hh:mm a" label, `isBefore` the past flag. */
  datatype ActivityItem = ActivityItem(id: string, title: string, hour: string, isBefore: bool)

  datatype SectionTitle = SectionTitle(dayNumber: int, dayName: string)

  datatype Section = Section(title: SectionTitle, data: seq<ActivityItem>)

  /** The date library's formatters: "hh:mm a", day of month, weekday name. */
  datatype DayFormat = DayFormat(
    hourLabel: Instant -> string,
    dayNumber: string -> int,
    dayName: string -> string)

  /** One server activity as a row, with its past flag taken against `now`. */
  function ToItem(fmt: DayFormat, now: Instant, a: ServerActivity): (r: ActivityItem)
    ensures r.id == a.id && r.title == a.title
    ensures r.hour == fmt.hourLabel(a.occursAt)
    ensures r.isBefore <==> a.occursAt < now
  {
    ActivityItem(a.id, a.title, fmt.hourLabel(a.occursAt), a.occursAt < now)
  }

  /** The rows of a day, in server order. */
  function ToItems(fmt: DayFormat, now: Instant, acts: seq<ServerActivity>): (r: seq<ActivityItem>)
    ensures |r| == |acts|
    ensures forall i :: 0 <= i < |acts| ==> r[i] == ToItem(fmt, now, acts[i])
  {
    if |acts| == 0 then [] else [ToItem(fmt, now, acts[0])] + ToItems(fmt, now, acts[1..])
  }

  /** Rows in non-decreasing order of their labels under JavaScript string `<=`. */
  predicate SortedByHour(s: seq<ActivityItem>)
  {
    forall i, j :: 0 <= i < j < |s| ==> JsString.LessOrEqual(s[i].hour, s[j].hour)
  }

  /** Puts `x` in front of the first row whose label is not smaller than its own. */
  function InsertByHour(x: ActivityItem, s: seq<ActivityItem>): (r: seq<ActivityItem>)
    requires SortedByHour(s)
    ensures SortedByHour(r)
    ensures multiset(r) == multiset(s) + multiset{x}
    ensures |r| == |s| + 1
  {
    if |s| == 0 then [x]
    else if JsString.LessOrEqual(x.hour, s[0].hour) then
      InsertFrontSorted(x, s);
      [x] + s
    else
      var tail := InsertByHour(x, s[1..]);
      assert s == [s[0]] + s[1..];
      InsertBehindSorted(x, s, tail);
      [s[0]] + tail
  }

  lemma InsertFrontSorted(x: ActivityItem, s: seq<ActivityItem>)
    requires |s| > 0 && SortedByHour(s) && JsString.LessOrEqual(x.hour, s[0].hour)
    ensures SortedByHour([x] + s)
  {
    var r := [x] + s;
    forall i, j | 0 <= i < j < |r|
      ensures JsString.LessOrEqual(r[i].hour, r[j].hour)
    {
      if i == 0 && j > 1 {
        JsString.LessOrEqualTransitive(x.hour, s[0].hour, s[j - 1].hour);
      }
    }
  }

  lemma InsertBehindSorted(x: ActivityItem, s: seq<ActivityItem>, tail: seq<ActivityItem>)
    requires |s| > 0 && SortedByHour(s) && !JsString.LessOrEqual(x.hour, s[0].hour)
    requires SortedByHour(tail) && multiset(tail) == multiset(s[1..]) + multiset{x}
    ensures SortedByHour([s[0]] + tail)
  {
    var r := [s[0]] + tail;
    JsString.LessOrEqualTotal(x.hour, s[0].hour);
    forall i, j | 0 <= i < j < |r|
      ensures JsString.LessOrEqual(r[i].hour, r[j].hour)
    {
      if i == 0 {
        var y := tail[j - 1];
        assert y in multiset(tail);
        if y != x {
          assert y in multiset(s[1..]);
          var k :| 0 <= k < |s[1..]| && s[1..][k] == y;
          assert s[k + 1] == y;
        }
      }
    }
  }

  /**
   * The sort of a day's rows by their hour labels, compared as text: the
   * rows in non-decreasing label order, none lost and none added.
   */
  function SortByHour(s: seq<ActivityItem>): (r: seq<ActivityItem>)
    ensures SortedByHour(r)
    ensures multiset(r) == multiset(s)
    ensures |r| == |s|
  {
    if |s| == 0 then []
    else
      assert s == [s[0]] + s[1..];
      InsertByHour(s[0], SortByHour(s[1..]))
  }

  /** The section for one server day. */
  function BuildSection(fmt: DayFormat, now: Instant, day: ServerDay): (r: Section)
    ensures r.title.dayNumber == fmt.dayNumber(day.date) && r.title.dayName == fmt.dayName(day.date)
    ensures SortedByHour(r.data)
    ensures multiset(r.data) == multiset(ToItems(fmt, now, day.activities))
  {
    Section(SectionTitle(fmt.dayNumber(day.date), fmt.dayName(day.date)),
            SortByHour(ToItems(fmt, now, day.activities)))
  }

  /**
   * The mapping in `loadActivities`: exactly one section per server day, in
   * the server's order, each holding a sorted permutation of its day's rows.
   */
  function BuildSections(fmt: DayFormat, now: Instant, days: seq<ServerDay>): (r: seq<Section>)
    ensures |r| == |days|
    ensures forall i :: 0 <= i < |days| ==>
              r[i].title == SectionTitle(fmt.dayNumber(days[i].date), fmt.dayName(days[i].date))
    ensures forall i :: 0 <= i < |days| ==>
              SortedByHour(r[i].data) && multiset(r[i].data) == multiset(ToItems(fmt, now, days[i].activities))
  {
    seq(|days|, i requires 0 <= i < |days| => BuildSection(fmt, now, days[i]))
  }

  /** A day without activities still gets its section, with no rows. */
  lemma EmptyDayKeptAsEmptySection(fmt: DayFormat, now: Instant, days: seq<ServerDay>, i: nat)
    requires i < |days| && |days[i].activities| == 0
    ensures |BuildSections(fmt, now, days)[i].data| == 0
  {
    var r := BuildSections(fmt, now, days);
    assert |multiset(r[i].data)| == 0;
  }

  /**
   * Every row of a section comes from an activity of that day: same id,
   * title and label, and flagged past exactly when it occurs before `now`.
   */
  lemma ItemsComeFromTheirDay(fmt: DayFormat, now: Instant, days: seq<ServerDay>, i: nat)
    requires i < |days|
    ensures forall it :: it in BuildSections(fmt, now, days)[i].data ==>
              exists a :: a in days[i].activities
                          && it.id == a.id && it.title == a.title
                          && it.hour == fmt.hourLabel(a.occursAt)
                          && (it.isBefore <==> a.occursAt < now)
  {
    var r := BuildSections(fmt, now, days);
    var acts := days[i].activities;
    var items := ToItems(fmt, now, acts);
    forall it | it in r[i].data
      ensures exists a :: a in acts && it.id == a.id && it.title == a.title
                          && it.hour == fmt.hourLabel(a.occursAt) && (it.isBefore <==> a.occursAt < now)
    {
      assert it in multiset(items);
      var k :| 0 <= k < |items| && items[k] == it;
      assert acts[k] in acts;
    }
  }

  /** Every activity of a day appears in that day's section. */
  lemma DayActivitiesAllShown(fmt: DayFormat, now: Instant, days: seq<ServerDay>, i: nat, k: nat)
    requires i < |days| && k < |days[i].activities|
    ensures ToItem(fmt, now, days[i].activities[k]) in BuildSections(fmt, now, days)[i].data
  {
    var items := ToItems(fmt, now, days[i].activities);
    assert items[k] in multiset(items);
  }

  /**
   * Labels are compared as text, not as times: an activity at "01:00 pm" is
   * listed before one at "11:00 am" of the same day, although it happens
   * later.
   */
  lemma AfternoonBeforeMorning(fmt: DayFormat, now: Instant, date: string,
                               morning: ServerActivity, afternoon: ServerActivity)
    requires fmt.hourLabel(morning.occursAt) == "11:00 am"
    requires fmt.hourLabel(afternoon.occursAt) == "01:00 pm"
    ensures BuildSections(fmt, now, [ServerDay(date, [morning, afternoon])])[0].data
            == [ToItem(fmt, now, afternoon), ToItem(fmt, now, morning)]
  {
    var m := ToItem(fmt, now, morning);
    var a := ToItem(fmt, now, afternoon);
    assert JsString.Less(a.hour, m.hour);
    assert ToItems(fmt, now, [morning, afternoon]) == [m, a];
    assert SortByHour([a]) == [a];
    assert SortByHour([m, a]) == InsertByHour(m, [a]);
  }
}
