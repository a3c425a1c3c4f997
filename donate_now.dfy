// The donor's "Donate Now" screen: the eligibility dialog (pregnancy
// question, then the gap since the last donation), the booking-time rule
// and the removal of a booked request from the list.
module DonateNowPage {
  import opened Common
  import opened Calendar
  import opened Forms
  import opened RequestSchema
  import opened DonorSchema
  import opened Store
  import RequestController

  // ---------------------------------------------------------------------
  // Eligibility
  // ---------------------------------------------------------------------

  /** `Math.ceil(Math.abs(today - last) / 86400000)`, on exact integers. */
  function ElapsedDays(now: int, last: int): (r: nat)
    ensures var diff := if now < last then last - now else now - last;
      (r - 1) * DayMs < diff <= r * DayMs || (r == 0 && diff == 0)
  {
    var diff := if now < last then last - now else now - last;
    (diff + DayMs - 1) / DayMs
  }

  /** The required gap: 120 days for female donors, 90 for everyone else. */
  function RequiredGap(g: Gender): int
  {
    if g == Female then 120 else 90
  }

  /** The dialog's steps: 1 asks about pregnancy, 2 books, 3 shows why the donor must wait. */
  datatype Step = AskPregnancy | Booking | Deferred

  /** `rejectReason`: empty at first, or one of the two messages the dialog builds. */
  datatype Reason = NoReason | Wait(elapsed: nat, remaining: int) | Pregnancy

  /** The profile fields the dialog reads. */
  datatype DonorInfo = DonorInfo(gender: Gender, lastDonationDate: Option<int>)

  /**
   * `checkDonationEligibility`: the new step and reason. A donor who never
   * donated books; otherwise the donor books once the elapsed days reach the
   * gap, and waits for the missing days before that. Booking keeps the old reason.
   */
  function DateCheck(info: DonorInfo, reason: Reason, now: int): (Step, Reason)
  {
    match info.lastDonationDate
    case None => (Booking, reason)
    case Some(last) =>
      var days := ElapsedDays(now, last);
      var gap := RequiredGap(info.gender);
      if days < gap then (Deferred, Wait(days, gap - days)) else (Booking, reason)
  }

  /** The date check books exactly when there is no last donation or the gap has passed. */
  lemma DateCheckBooks(info: DonorInfo, reason: Reason, now: int)
    ensures DateCheck(info, reason, now).0 == Booking <==>
      info.lastDonationDate.None? || ElapsedDays(now, info.lastDonationDate.value) >= RequiredGap(info.gender)
    ensures DateCheck(info, reason, now).0 != AskPregnancy
    ensures DateCheck(info, reason, now).0 == Deferred ==>
      var w := DateCheck(info, reason, now).1;
      w.Wait? && w.remaining > 0 && w.elapsed + w.remaining == RequiredGap(info.gender)
  {
  }

  /**
   * Because the day count is rounded up, a donor may book one millisecond
   * after `gap - 1` whole days; at exactly `gap - 1` days one day is missing.
   */
  lemma RoundingUpBooksEarly(info: DonorInfo, reason: Reason, last: int)
    requires info.lastDonationDate == Some(last)
    ensures DateCheck(info, reason, last + (RequiredGap(info.gender) - 1) * DayMs + 1).0 == Booking
    ensures DateCheck(info, reason, last + (RequiredGap(info.gender) - 1) * DayMs) == (Deferred, Wait(RequiredGap(info.gender) - 1, 1))
  {
  }

  // ---------------------------------------------------------------------
  // Booking time
  // ---------------------------------------------------------------------

  /** The hours and minutes of a time input (`HH:MM`); `None` where `setHours` would get `NaN`. */
  function TimeInput(s: string): Option<(int, int)>
  {
    if |s| != 5 || s[2] != ':' then None
    else
      var h := DecimalAt(s, 0, 2);
      var m := DecimalAt(s, 3, 5);
      if h.None? || m.None? then None else Some((h.value, m.value))
  }

  /** Why a booking is not sent, or that it is: `Blocked` is the browser's refusal, the others the handler's. */
  datatype BookingCheck = Blocked | PastDate | TooSoon | Send

  /**
   * The browser's checks of the booking form: the date and the time are
   * `required`, and the date may not lie before the input's `min`, today's
   * UTC date. A date input holds either nothing or a date.
   */
  predicate BrowserAllows(date: string, time: string, now: int)
  {
    DateInput(date).Some? && time != "" && DayNumber(DateInput(date).value) >= DayNumber(DateOf(now))
  }

  /**
   * `handleBookingSubmit`'s guards: a date before today's midnight is
   * refused; on today's date the chosen time must be at least one hour
   * ahead. Comparisons with an invalid date or time are false, so those pass.
   */
  function HandlerCheck(date: string, time: string, now: int): BookingCheck
  {
    var today := Midnight(now);
    match DateInput(date)
    case None => Send
    case Some(d) =>
      var selected := StartOf(d);
      if selected < today then PastDate
      else if selected == today then
        match TimeInput(time)
        case None => Send
        case Some(hm) => if today + hm.0 * HourMs + hm.1 * MinuteMs < now + HourMs then TooSoon else Send
      else Send
  }

  /** The browser's checks, then the handler's. */
  function CheckBooking(date: string, time: string, now: int): BookingCheck
  {
    if BrowserAllows(date, time, now) then HandlerCheck(date, time, now) else Blocked
  }

  /** Day numbers order instants when one of them is a midnight. */
  lemma MidnightOrder(d: Date, now: int)
    requires ValidDate(d)
    ensures StartOf(d) < Midnight(now) <==> DayNumber(d) < DayNumber(DateOf(now))
    ensures StartOf(d) == Midnight(now) <==> d == DateOf(now)
  {
    var z := now / DayMs;
    assert DayNumber(DateOf(now)) == z;
    assert Midnight(now) == z * DayMs;
    assert StartOf(d) == DayNumber(d) * DayMs;
    if d == DateOf(now) {
    } else if DayNumber(d) == z {
      DateRoundTrip(d);
    }
  }

  /**
   * The handler alone: a date before today is refused whatever the time; a
   * later date is accepted whatever the time; today's date is accepted
   * exactly when the slot starts an hour or more from now.
   */
  lemma HandlerRule(date: string, time: string, now: int)
    ensures var c := HandlerCheck(date, time, now);
      c != Blocked
      && (DateInput(date).Some? ==>
        var d := DateInput(date).value;
        (c == PastDate <==> DayNumber(d) < DayNumber(DateOf(now)))
        && (DayNumber(d) > DayNumber(DateOf(now)) ==> c == Send)
        && (d == DateOf(now) && TimeInput(time).Some? ==>
              (c == Send <==> Midnight(now) + TimeInput(time).value.0 * HourMs
                                + TimeInput(time).value.1 * MinuteMs >= now + HourMs)))
    ensures DateInput(date).None? ==> HandlerCheck(date, time, now) == Send
  {
    if DateInput(date).Some? {
      var d := DateInput(date).value;
      MidnightOrder(d, now);
    }
  }

  /**
   * With the browser in front: an empty field or a past date is stopped by
   * the browser, so the handler's past-date refusal never shows; a later
   * date is sent whatever the time; today's date is sent exactly when the
   * slot starts an hour or more from now.
   */
  lemma BookingRule(date: string, time: string, now: int)
    ensures var c := CheckBooking(date, time, now);
      (c == Blocked <==> DateInput(date).None? || time == ""
                         || DayNumber(DateInput(date).value) < DayNumber(DateOf(now)))
      && c != PastDate
      && (c != Blocked ==>
        var d := DateInput(date).value;
        (DayNumber(d) > DayNumber(DateOf(now)) ==> c == Send)
        && (d == DateOf(now) && TimeInput(time).Some? ==>
              (c == Send <==> Midnight(now) + TimeInput(time).value.0 * HourMs
                                + TimeInput(time).value.1 * MinuteMs >= now + HourMs)))
  {
    HandlerRule(date, time, now);
  }

  // ---------------------------------------------------------------------
  // The list after a booking
  // ---------------------------------------------------------------------

  /** `prev.filter(req => req._id !== id)` */
  function WithoutRequest(requests: seq<BloodRequest>, id: Id): (r: seq<BloodRequest>)
    ensures forall x :: x in r <==> x in requests && x.id != id
  {
    var p := (x: BloodRequest) => x.id != id;
    forall x | true ensures x in Filter(requests, p) <==> x in requests && p(x) {
      FilterMember(requests, p, x);
    }
    Filter(requests, p)
  }

  /** Filtering out a single element keeps the rest in order. */
  lemma FilterDropsOne<T>(xs: seq<T>, k: nat, p: T -> bool)
    requires k < |xs| && !p(xs[k])
    requires forall i :: 0 <= i < |xs| && i != k ==> p(xs[i])
    ensures Filter(xs, p) == xs[..k] + xs[k + 1..]
  {
    var before, rest := xs[..k], xs[k..];
    assert xs == before + rest;
    FilterAppend(before, rest, p);
    KeptBefore(xs, k, p);
    DroppedFirst(rest, p);
    assert rest[1..] == xs[k + 1..];
  }

  lemma KeptBefore<T>(xs: seq<T>, k: nat, p: T -> bool)
    requires k <= |xs| && forall i :: 0 <= i < k ==> p(xs[i])
    ensures Filter(xs[..k], p) == xs[..k]
  {
    FilterKeepsAll(xs[..k], p);
  }

  /** A failing head is dropped and every later element kept. */
  lemma DroppedFirst<T>(rest: seq<T>, p: T -> bool)
    requires |rest| > 0 && !p(rest[0]) && forall i :: 1 <= i < |rest| ==> p(rest[i])
    ensures Filter(rest, p) == rest[1..]
  {
    assert forall i :: 0 <= i < |rest[1..]| ==> rest[1..][i] == rest[i + 1];
    FilterKeepsAll(rest[1..], p);
  }

  /** With distinct ids, exactly the booked request leaves the list and the others keep their order. */
  lemma RemovalKeepsOrder(requests: seq<BloodRequest>, k: nat)
    requires k < |requests| && UniqueBy(requests, RequestId)
    ensures WithoutRequest(requests, requests[k].id) == requests[..k] + requests[k + 1..]
  {
    UniqueOthers(requests, k, RequestId);
    FilterDropsOne(requests, k, (x: BloodRequest) => x.id != requests[k].id);
  }

  // ---------------------------------------------------------------------
  // The page
  // ---------------------------------------------------------------------

  datatype FormField = DateField | TimeField | CommentsField

  class Page {
    var requests: seq<BloodRequest>
    var donor: Option<DonorInfo>
    var isModalOpen: bool
    var modalStep: Step
    var rejectReason: Reason
    var selected: Option<BloodRequest>
    var date: string
    var time: string
    var comments: string
    /**
     * What the date and time inputs show. They are not bound to the form
     * state, so each time the booking step is mounted they start empty,
     * whatever the form state still holds; typing sets both.
     */
    var dateShown: string
    var timeShown: string

    /**
     * An open dialog belongs to a request, and the profile it reads has
     * loaded; a non-empty input shows the form state's value.
     */
    ghost predicate Valid()
      reads this
    {
      && (isModalOpen ==> selected.Some? && donor.Some?)
      && (dateShown == "" || dateShown == date)
      && (timeShown == "" || timeShown == time)
    }

    constructor ()
      ensures Valid() && requests == [] && donor.None? && !isModalOpen
      ensures modalStep == AskPregnancy && rejectReason == NoReason && selected.None?
      ensures date == "" && time == "" && comments == "" && dateShown == "" && timeShown == ""
    {
      requests, donor := [], None;
      isModalOpen, modalStep, rejectReason, selected := false, AskPregnancy, NoReason, None;
      date, time, comments := "", "", "";
      dateShown, timeShown := "", "";
    }

    /** The two fetches on mount: the matching requests, then the caller's profile; a failure leaves both. */
    method Load(db: Database, actor: Id)
      requires Valid()
      modifies this
      ensures Valid()
      ensures var m := RequestController.MatchingRequests(db.requests, db.donors, actor);
        match m
        case None => requests == old(requests) && donor == old(donor)
        case Some(v) =>
          var d := db.donors[DonorIndex(db.donors, actor).value];
          requests == v.requests && donor == Some(DonorInfo(d.gender, d.lastDonationDate))
      ensures isModalOpen == old(isModalOpen) && modalStep == old(modalStep) && selected == old(selected)
    {
      var m := RequestController.MatchingRequests(db.requests, db.donors, actor);
      if m.Some? {
        var d := db.donors[DonorIndex(db.donors, actor).value];
        Show(m.value.requests, DonorInfo(d.gender, d.lastDonationDate));
      }
    }

    /** `setRequests(...)` and `setDonor(...)` once both answers are in. */
    method Show(fetched: seq<BloodRequest>, info: DonorInfo)
      requires Valid()
      modifies this
      ensures Valid() && requests == fetched && donor == Some(info)
      ensures isModalOpen == old(isModalOpen) && modalStep == old(modalStep) && selected == old(selected)
    {
      requests, donor := fetched, Some(info);
    }

    /** `checkDonationEligibility` */
    method CheckEligibility(now: int)
      requires donor.Some?
      modifies this
      ensures donor == old(donor) && (modalStep, rejectReason) == DateCheck(donor.value, old(rejectReason), now)
      ensures requests == old(requests) && isModalOpen == old(isModalOpen)
      ensures selected == old(selected) && date == old(date) && time == old(time) && comments == old(comments)
      ensures dateShown == old(dateShown) && timeShown == old(timeShown)
    {
      var info := donor.value;
      if info.lastDonationDate.None? {
        modalStep := Booking;
        return;
      }
      var days := ElapsedDays(now, info.lastDonationDate.value);
      var gap := RequiredGap(info.gender);
      if days < gap {
        rejectReason := Wait(days, gap - days);
        modalStep := Deferred;
      } else {
        modalStep := Booking;
      }
    }

    /**
     * `handleInitiateDonation`: a female donor is asked about pregnancy
     * first; anyone else goes straight to the date check. The dialog mounts
     * afresh, so its inputs show nothing although the form state keeps the
     * last booking's date and time.
     */
    method InitiateDonation(req: BloodRequest, now: int)
      requires req in requests && donor.Some?
      modifies this
      ensures Valid() && isModalOpen && selected == Some(req)
      ensures donor.value.gender == Female ==> modalStep == AskPregnancy && rejectReason == old(rejectReason)
      ensures donor.value.gender != Female ==>
        (modalStep, rejectReason) == DateCheck(donor.value, old(rejectReason), now)
      ensures requests == old(requests) && donor == old(donor)
      ensures date == old(date) && time == old(time) && comments == old(comments)
      ensures dateShown == "" && timeShown == ""
    {
      dateShown, timeShown := "", "";
      selected := Some(req);
      if donor.value.gender == Female {
        modalStep := AskPregnancy;
      } else {
        CheckEligibility(now);
      }
      isModalOpen := true;
    }

    /** `handlePregnancyAnswer`, from the two buttons of step 1; the booking step mounts with empty inputs. */
    method PregnancyAnswer(isPregnant: bool, now: int)
      requires Valid() && isModalOpen && modalStep == AskPregnancy
      modifies this
      ensures Valid() && isModalOpen
      ensures isPregnant ==> modalStep == Deferred && rejectReason == Pregnancy
      ensures !isPregnant ==> (modalStep, rejectReason) == DateCheck(donor.value, old(rejectReason), now)
      ensures requests == old(requests) && donor == old(donor) && selected == old(selected)
      ensures date == old(date) && time == old(time) && comments == old(comments)
      ensures dateShown == "" && timeShown == ""
    {
      dateShown, timeShown := "", "";
      if isPregnant {
        rejectReason := Pregnancy;
        modalStep := Deferred;
      } else {
        CheckEligibility(now);
      }
    }

    /** `handleChange` on one of the three booking fields: the input and the form state agree. */
    method Edit(field: FormField, value: string)
      requires Valid()
      modifies this
      ensures Valid()
      ensures date == (if field == DateField then value else old(date))
      ensures dateShown == (if field == DateField then value else old(dateShown))
      ensures timeShown == (if field == TimeField then value else old(timeShown))
      ensures time == (if field == TimeField then value else old(time))
      ensures comments == (if field == CommentsField then value else old(comments))
      ensures requests == old(requests) && donor == old(donor) && isModalOpen == old(isModalOpen)
      ensures modalStep == old(modalStep) && rejectReason == old(rejectReason) && selected == old(selected)
    {
      match field
      case DateField => date, dateShown := value, value;
      case TimeField => time, timeShown := value, value;
      case CommentsField => comments := value;
    }

    /** `closeModal`: hides the dialog and empties the booking form. */
    method CloseModal()
      modifies this
      ensures Valid() && !isModalOpen && date == "" && time == "" && comments == ""
      ensures dateShown == "" && timeShown == ""
      ensures requests == old(requests) && donor == old(donor) && selected == old(selected)
      ensures modalStep == old(modalStep) && rejectReason == old(rejectReason)
    {
      isModalOpen := false;
      date, time, comments := "", "", "";
      dateShown, timeShown := "", "";
    }

    /**
     * `handleBookingSubmit` behind the browser's checks: those, on what the
     * inputs show, then the handler's guards, then `scheduleDonation` for the
     * selected request with the form state; whenever it is sent the two
     * agree. On success that request leaves the list and the dialog closes,
     * the form state keeping its values.
     */
    method BookingSubmit(db: Database, actor: Id, emailDelivered: bool, now: int)
      returns (check: BookingCheck, code: Option<int>)
      requires Valid() && isModalOpen && modalStep == Booking && db.Valid()
      modifies this, db
      ensures Valid() && db.Valid()
      ensures selected == old(selected) && check == CheckBooking(old(dateShown), old(timeShown), now)
      ensures code.Some? <==> check == Send
      ensures code.Some? ==> old(dateShown) == old(date) && old(timeShown) == old(time)
      ensures check != Send ==> db.requests == old(db.requests)
      ensures code.Some? ==>
        RequestController.Reply(code.value, db.requests)
        == RequestController.Schedule(old(db.requests), old(db.users), old(db.donors), actor, selected.value.id,
                                      Some(date), Some(time), Some(comments), now)
      ensures db.users == old(db.users) && db.donors == old(db.donors) && db.hospitals == old(db.hospitals)
      ensures db.admins == old(db.admins) && db.nextId == old(db.nextId)
      ensures var booked := code.Some? && Succeeded(code.value);
        requests == (if booked then WithoutRequest(old(requests), selected.value.id) else old(requests))
        && isModalOpen == !booked
        && dateShown == (if booked then "" else old(dateShown)) && timeShown == (if booked then "" else old(timeShown))
      ensures donor == old(donor) && selected == old(selected) && modalStep == old(modalStep)
      ensures date == old(date) && time == old(time) && comments == old(comments)
    {
      check := CheckBooking(dateShown, timeShown, now);
      if check != Send {
        code := None;
        return;
      }
      var id := selected.value.id;
      var c := PostSchedule(db, actor, id, date, time, comments, emailDelivered, now);
      code := Some(c);
      Booked(c, id);
    }

    /** After the answer: a booked request leaves the list and the dialog, with its inputs, unmounts. */
    method Booked(c: int, id: Id)
      modifies this
      ensures requests == (if Succeeded(c) then WithoutRequest(old(requests), id) else old(requests))
      ensures isModalOpen == (old(isModalOpen) && !Succeeded(c))
      ensures dateShown == (if Succeeded(c) then "" else old(dateShown))
      ensures timeShown == (if Succeeded(c) then "" else old(timeShown))
      ensures donor == old(donor) && selected == old(selected) && modalStep == old(modalStep)
      ensures rejectReason == old(rejectReason)
      ensures date == old(date) && time == old(time) && comments == old(comments)
    {
      if Succeeded(c) {
        requests := WithoutRequest(requests, id);
        isModalOpen := false;
        dateShown, timeShown := "", "";
      }
    }
  }

  /** `PUT /api/requests/schedule/:id` with the form's date, time and comments. */
  method PostSchedule(db: Database, actor: Id, id: Id, date: string, time: string, comments: string,
                      emailDelivered: bool, now: int) returns (code: int)
    requires db.Valid()
    modifies db
    ensures db.Valid()
    ensures RequestController.Reply(code, db.requests)
      == RequestController.Schedule(old(db.requests), old(db.users), old(db.donors), actor, id,
                                    Some(date), Some(time), Some(comments), now)
    ensures db.users == old(db.users) && db.donors == old(db.donors) && db.hospitals == old(db.hospitals)
    ensures db.admins == old(db.admins) && db.nextId == old(db.nextId)
  {
    code := RequestController.ScheduleDonation(db, actor, id, Some(date), Some(time), Some(comments),
                                               emailDelivered, now);
  }
}
