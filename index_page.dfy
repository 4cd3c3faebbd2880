/**
 * The calendar page component: its state, the handlers that replace that state,
 * and the views derived from it.
 */
module IndexPage {
  import opened Wrappers
  import opened Seqs
  import opened Dates
  import opened Events
  import opened CalendarGrid

  class Page {
    var events: seq<Event>
    var selectedSport: Sport
    var registeredEvents: seq<int>
    /** The displayed month, as the `Date` value the page keeps (day 1 after any month change). */
    var currentMonth: Date
    var isAddDialogOpen: bool
    var newEvent: Draft

    /** Event ids are distinct and the displayed month is a real date. */
    ghost predicate Valid()
      reads this
    {
      UniqueIds(events) && ValidDate(currentMonth)
    }

    /** The page's initial state; `today` is the moment it is shown. */
    constructor (today: Date)
      requires ValidDate(today)
      ensures Valid()
      ensures events == InitialEvents && selectedSport == All && registeredEvents == []
      ensures currentMonth == today && !isAddDialogOpen && newEvent == InitialDraft
    {
      events := InitialEvents;
      selectedSport := All;
      registeredEvents := [];
      currentMonth := today;
      isAddDialogOpen := false;
      newEvent := InitialDraft;
      InitialEventsIds();
    }

    /** `filteredEvents`. */
    function FilteredEvents(): seq<Event>
      reads this
    {
      FilterBySport(events, selectedSport)
    }

    /** `upcomingEvents`. */
    function UpcomingEvents(): seq<Event>
      reads this
    {
      UpcomingOf(FilteredEvents())
    }

    /** `pastEvents`. */
    function PastEvents(): seq<Event>
      reads this
    {
      PastOf(FilteredEvents())
    }

    /** The sport selector. */
    method SelectSport(sport: Sport)
      modifies this
      ensures selectedSport == sport
      ensures events == old(events) && registeredEvents == old(registeredEvents)
      ensures currentMonth == old(currentMonth) && isAddDialogOpen == old(isAddDialogOpen)
      ensures newEvent == old(newEvent)
    {
      selectedSport := sport;
    }

    /** Opening or cancelling the add-event dialog. */
    method SetAddDialogOpen(open: bool)
      modifies this
      ensures isAddDialogOpen == open
      ensures events == old(events) && selectedSport == old(selectedSport)
      ensures registeredEvents == old(registeredEvents) && currentMonth == old(currentMonth)
      ensures newEvent == old(newEvent)
    {
      isAddDialogOpen := open;
    }

    /** The form inputs, each of which replaces the draft by an edited copy. */
    method EditDraft(draft: Draft)
      modifies this
      ensures newEvent == draft
      ensures events == old(events) && selectedSport == old(selectedSport)
      ensures registeredEvents == old(registeredEvents) && currentMonth == old(currentMonth)
      ensures isAddDialogOpen == old(isAddDialogOpen)
    {
      newEvent := draft;
    }

    /** `handleRegister`: records the id, without checking whether it is already there. */
    method HandleRegister(eventId: int)
      modifies this
      ensures registeredEvents == old(registeredEvents) + [eventId]
      ensures |registeredEvents| == |old(registeredEvents)| + 1
      ensures events == old(events) && selectedSport == old(selectedSport)
      ensures currentMonth == old(currentMonth) && isAddDialogOpen == old(isAddDialogOpen)
      ensures newEvent == old(newEvent)
    {
      registeredEvents := registeredEvents + [eventId];
    }

    /**
     * `handleAddEvent`: an incomplete draft changes nothing; a complete one appends
     * one new upcoming event with the next id, closes the dialog and resets the draft.
     */
    method HandleAddEvent()
      requires Valid()
      modifies this
      ensures Valid()
      ensures selectedSport == old(selectedSport) && registeredEvents == old(registeredEvents)
      ensures currentMonth == old(currentMonth)
      ensures !DraftComplete(old(newEvent)) ==>
        events == old(events) && newEvent == old(newEvent) && isAddDialogOpen == old(isAddDialogOpen)
      ensures DraftComplete(old(newEvent)) ==>
        events == old(events) + [EventFromDraft(old(newEvent), NextId(old(events)))] &&
        !isAddDialogOpen && newEvent == InitialDraft
      ensures DraftComplete(old(newEvent)) ==>
        var e := events[|events| - 1];
        |events| == |old(events)| + 1 && events[..|old(events)|] == old(events) &&
        (forall i :: 0 <= i < |old(events)| ==> old(events)[i].id < e.id) &&
        e.participants == 0 && e.status == Upcoming &&
        e.maxParticipants == ParticipantLimit(old(newEvent).maxParticipants) &&
        e.title == old(newEvent).title && e.date == old(newEvent).date &&
        e.time == old(newEvent).time && e.location == old(newEvent).location &&
        e.sport == old(newEvent).sport && e.organizer == old(newEvent).organizer &&
        e.description == old(newEvent).description
    {
      if !DraftComplete(newEvent) {
        return;
      }
      var eventToAdd := EventFromDraft(newEvent, NextId(events));
      NextIdKeepsUnique(events, eventToAdd);
      events := events + [eventToAdd];
      isAddDialogOpen := false;
      newEvent := InitialDraft;
    }

    /** `changeMonth`: day 1 of the month `offset` months away. */
    method ChangeMonth(offset: int)
      requires Valid()
      modifies this
      ensures Valid()
      ensures var target := ShiftMonth(old(currentMonth).year, old(currentMonth).month, offset);
        currentMonth == Date(target.year, target.month, 1)
      ensures currentMonth.year * 12 + currentMonth.month ==
        old(currentMonth).year * 12 + old(currentMonth).month + offset
      ensures events == old(events) && selectedSport == old(selectedSport)
      ensures registeredEvents == old(registeredEvents) && isAddDialogOpen == old(isAddDialogOpen)
      ensures newEvent == old(newEvent)
    {
      var target := ShiftMonth(currentMonth.year, currentMonth.month, offset);
      currentMonth := Date(target.year, target.month, 1);
    }

    /** `calendarData` for the displayed month and the page's upcoming events. */
    method CalendarData(today: Date) returns (days: seq<Cell>)
      requires Valid()
      ensures IsCalendarGrid(days, currentMonth.year, currentMonth.month, UpcomingEvents(), today)
    {
      days := BuildGrid(currentMonth.year, currentMonth.month, UpcomingEvents(), today);
    }
  }

  /**
   * A day cell of the page's calendar shows exactly the events of the selected sport
   * that are upcoming and dated on that day.
   */
  lemma CalendarShowsSelectedUpcoming(es: seq<Event>, sport: Sport, year: int, month: int, today: Date,
                                      days: seq<Cell>, i: int, e: Event)
    requires 0 <= month < 12
    requires IsCalendarGrid(days, year, month, UpcomingOf(FilterBySport(es, sport)), today)
    requires Weekday(year, month, 1) <= i < |days|
    ensures e in days[i].events <==>
      e in es && SportMatches(sport, e) && e.status == Upcoming && e.date == DateKey(year, month, days[i].date)
  {
    var filtered := FilterBySport(es, sport);
    GridCellEvents(days, year, month, UpcomingOf(filtered), today, i, e);
    FilterMember(es, (x: Event) => SportMatches(sport, x), e);
    FilterMember(filtered, IsUpcoming, e);
  }

  /**
   * Adding an event only appends: the upcoming list gains the new event at its end when
   * its sport is selected, and the past list is unchanged.
   */
  lemma AddEventAppendsToViews(es: seq<Event>, d: Draft, sport: Sport)
    ensures var e := EventFromDraft(d, NextId(es));
      UpcomingOf(FilterBySport(es + [e], sport)) ==
        UpcomingOf(FilterBySport(es, sport)) + (if SportMatches(sport, e) then [e] else [])
    ensures var e := EventFromDraft(d, NextId(es));
      PastOf(FilterBySport(es + [e], sport)) == PastOf(FilterBySport(es, sport))
  {
    var e := EventFromDraft(d, NextId(es));
    var p := (x: Event) => SportMatches(sport, x);
    FilterAppend(es, [e], p);
    assert [e][1..] == [];
    var tail := if SportMatches(sport, e) then [e] else [];
    assert Filter([e], p) == tail;
    FilterAppend(FilterBySport(es, sport), tail, IsUpcoming);
    FilterAppend(FilterBySport(es, sport), tail, IsPast);
    if tail != [] {
      assert tail[1..] == [];
    }
  }
}
