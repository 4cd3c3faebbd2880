/** The event records of the calendar page and the pure views derived from the event list. */
module Events {
  import opened Wrappers
  import opened Seqs

  /** The page's `SportType`; `All` is the filter's "every sport" choice. */
  datatype Sport = All | Football | Basketball | Running | Volleyball | Tennis

  datatype Status = Upcoming | Past

  datatype Event = Event(
    id: int,
    title: string,
    date: string,
    time: string,
    location: string,
    sport: Sport,
    participants: int,
    maxParticipants: int,
    status: Status,
    description: string,
    organizer: string,
    result: Option<string>)

  /**
   * The add-event form (`Partial<Event>`). The form's inputs always hold strings;
   * the participant limit may be absent.
   */
  datatype Draft = Draft(
    title: string,
    date: string,
    time: string,
    location: string,
    sport: Sport,
    description: string,
    organizer: string,
    maxParticipants: Option<int>)

  /** The draft the form starts with and is reset to after a successful add. */
  const InitialDraft: Draft := Draft("", "", "", "", Running, "", "", Some(50))

  /** The participant limit a new event receives when the draft gives none. */
  const DefaultMaxParticipants: int := 50

  const InitialEvents: seq<Event> := [
    Event(1, "Городской марафон \"Весенний забег\"", "2025-11-15", "09:00", "Центральный парк",
          Running, 124, 200, Upcoming,
          "Массовый забег на 10км среди любителей. Призы победителям в каждой возрастной категории.",
          "Спортивный клуб \"Олимп\"", None),
    Event(6, "Народный трейл", "2025-11-04", "10:00", "Лесопарк",
          Running, 45, 80, Upcoming,
          "Трейловый забег по пересечённой местности на дистанцию 15 км. Подходит для любителей бега на природе.",
          "Беговой клуб \"Трейл\"", None),
    Event(2, "Турнир по футболу 5х5", "2025-11-08", "14:00", "Стадион \"Динамо\"",
          Football, 40, 48, Upcoming,
          "Любительский турнир среди команд города. Формат: групповой этап + плей-офф.",
          "Федерация футбола", None),
    Event(3, "Баскетбольная лига: Финал", "2025-11-20", "18:00", "Дворец спорта",
          Basketball, 89, 100, Upcoming,
          "Финальная игра городской любительской баскетбольной лиги.",
          "Баскетбольная федерация", None),
    Event(4, "Открытый турнир по волейболу", "2025-10-15", "10:00", "Спорткомплекс \"Победа\"",
          Volleyball, 56, 60, Past,
          "Командный турнир среди любителей.",
          "Волейбольный клуб",
          Some("1 место: Команда \"Акула\", 2 место: \"Динамо\", 3 место: \"Спартак\"")),
    Event(5, "Теннисный турнир \"Осень 2025\"", "2025-10-22", "11:00", "Теннисные корты \"Звезда\"",
          Tennis, 32, 32, Past,
          "Индивидуальный турнир по теннису.",
          "Теннисный клуб \"Звезда\"",
          Some("Победитель: Иванов А.П. Финалист: Петров С.М."))
  ]

  // ---------------------------------------------------------------------------
  // Sport filter and upcoming/past split

  predicate SportMatches(selected: Sport, e: Event) {
    selected == All || e.sport == selected
  }

  /** `filteredEvents`: the events of the selected sport, or all of them for `All`. */
  function FilterBySport(es: seq<Event>, selected: Sport): (r: seq<Event>)
    ensures forall i :: 0 <= i < |r| ==> r[i] in es && SportMatches(selected, r[i])
    ensures forall i :: 0 <= i < |es| && SportMatches(selected, es[i]) ==> es[i] in r
  {
    Filter(es, (e: Event) => SportMatches(selected, e))
  }

  predicate IsUpcoming(e: Event) {
    e.status == Upcoming
  }

  predicate IsPast(e: Event) {
    e.status == Past
  }

  /** `upcomingEvents`. */
  function UpcomingOf(es: seq<Event>): (r: seq<Event>)
    ensures forall i :: 0 <= i < |r| ==> r[i] in es && r[i].status == Upcoming
    ensures forall i :: 0 <= i < |es| && es[i].status == Upcoming ==> es[i] in r
  {
    Filter(es, IsUpcoming)
  }

  /** `pastEvents`. */
  function PastOf(es: seq<Event>): (r: seq<Event>)
    ensures forall i :: 0 <= i < |r| ==> r[i] in es && r[i].status == Past
    ensures forall i :: 0 <= i < |es| && es[i].status == Past ==> es[i] in r
  {
    Filter(es, IsPast)
  }

  /** Selecting "all sports" keeps every event, in order. */
  lemma FilterAllSports(es: seq<Event>)
    ensures FilterBySport(es, All) == es
  {
    FilterKeepsAll(es, (e: Event) => SportMatches(All, e));
  }

  /**
   * Selecting one sport keeps exactly the events of that sport, each as often as it
   * occurs, in their original order.
   */
  lemma FilterOneSport(es: seq<Event>, selected: Sport, e: Event)
    requires selected != All
    ensures e in FilterBySport(es, selected) <==> e in es && e.sport == selected
    ensures multiset(FilterBySport(es, selected))[e] == if e.sport == selected then multiset(es)[e] else 0
    ensures IsSubsequence(FilterBySport(es, selected), es)
  {
    var p := (x: Event) => SportMatches(selected, x);
    FilterMember(es, p, e);
    FilterCount(es, p, e);
    FilterIsSubsequence(es, p);
  }

  /**
   * `upcomingEvents` and `pastEvents` split the filtered list: every event lies in exactly
   * one of them, as often as in the list, and both keep the list's order.
   */
  lemma StatusPartition(es: seq<Event>)
    ensures multiset(UpcomingOf(es)) + multiset(PastOf(es)) == multiset(es)
    ensures |UpcomingOf(es)| + |PastOf(es)| == |es|
    ensures forall e :: e in es ==> (e in UpcomingOf(es) <==> e !in PastOf(es))
    ensures IsSubsequence(UpcomingOf(es), es) && IsSubsequence(PastOf(es), es)
  {
    FilterPartition(es, IsUpcoming, IsPast);
    FilterIsSubsequence(es, IsUpcoming);
    FilterIsSubsequence(es, IsPast);
    forall e | e in es
      ensures e in UpcomingOf(es) <==> e !in PastOf(es)
    {
      FilterMember(es, IsUpcoming, e);
      FilterMember(es, IsPast, e);
    }
  }

  // ---------------------------------------------------------------------------
  // Adding an event

  /** `Math.max(...events.map(e => e.id), 0)`. */
  function MaxId(es: seq<Event>): (m: int)
    ensures m >= 0
    ensures forall i :: 0 <= i < |es| ==> es[i].id <= m
    ensures m == 0 || exists i :: 0 <= i < |es| && es[i].id == m
  {
    if es == [] then 0
    else
      var rest := MaxId(es[1..]);
      assert forall i :: 1 <= i < |es| ==> es[i] == es[1..][i - 1];
      if es[0].id > rest then es[0].id else rest
  }

  /** The id `handleAddEvent` gives a new event. */
  function NextId(es: seq<Event>): (id: int)
    ensures id >= 1
    ensures forall i :: 0 <= i < |es| ==> es[i].id < id
  {
    MaxId(es) + 1
  }

  predicate UniqueIds(es: seq<Event>) {
    forall i, j :: 0 <= i < j < |es| ==> es[i].id != es[j].id
  }

  /** The guard of `handleAddEvent`: title, date, time, location and organizer are non-empty. */
  predicate DraftComplete(d: Draft) {
    d.title != "" && d.date != "" && d.time != "" && d.location != "" && d.organizer != ""
  }

  /** `newEvent.maxParticipants || 50`: an absent or zero limit becomes 50. */
  function ParticipantLimit(v: Option<int>): (n: int)
    ensures n != 0
    ensures v.Some? && v.value != 0 ==> n == v.value
    ensures v == None || v == Some(0) ==> n == DefaultMaxParticipants
  {
    match v
    case None => DefaultMaxParticipants
    case Some(n) => if n == 0 then DefaultMaxParticipants else n
  }

  /** The event `handleAddEvent` builds from a complete draft. */
  function EventFromDraft(d: Draft, id: int): Event {
    Event(id, d.title, d.date, d.time, d.location, d.sport, 0, ParticipantLimit(d.maxParticipants),
          Upcoming, d.description, d.organizer, None)
  }

  /** Appending an event with the next id keeps ids unique, and the new id is the largest. */
  lemma NextIdKeepsUnique(es: seq<Event>, e: Event)
    requires UniqueIds(es)
    requires e.id == NextId(es)
    ensures UniqueIds(es + [e])
    ensures forall i :: 0 <= i < |es| ==> (es + [e])[i].id < (es + [e])[|es|].id
  {
  }

  /** The initial events have distinct ids, and the first event added gets id 7. */
  lemma InitialEventsIds()
    ensures UniqueIds(InitialEvents)
    ensures NextId(InitialEvents) == 7
  {
    assert InitialEvents[1].id == 6;
  }
}
