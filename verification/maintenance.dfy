/**
 The maintenance planning view: one row per transmitter with a priority
 (Élevée, Moyenne, Basse) derived from its status and from the number of
 days until its next maintenance, the rows sorted by priority rank and then
 by next-maintenance date string, and a badge per row.
 */
module Maintenance {
  import opened Text
  import opened TableOps
  import opened Fleet

  datatype Priority = Elevee | Moyenne | Basse

  function PriorityLabel(p: Priority): string
  {
    match p
    case Elevee => "Élevée"
    case Moyenne => "Moyenne"
    case Basse => "Basse"
  }

  /** The `priority_order` dictionary used to rank the labels. */
  const PriorityOrder: map<string, nat> := map["Élevée" := 0, "Moyenne" := 1, "Basse" := 2]

  /** The rank of a priority, looked up by label; every label is in the dictionary. */
  function Rank(p: Priority): (r: nat)
    ensures r < 3
    ensures PriorityLabel(p) in PriorityOrder && PriorityOrder[PriorityLabel(p)] == r
  {
    var l := PriorityLabel(p);
    assert l in PriorityOrder;
    PriorityOrder[l]
  }

  /** Ranks follow urgency and tell priorities apart. */
  lemma RankOrder()
    ensures Rank(Elevee) < Rank(Moyenne) < Rank(Basse)
  {
    assert PriorityLabel(Elevee) != PriorityLabel(Moyenne);
  }

  /**
   The priority of a transmitter: under maintenance it is Élevée; otherwise
   it is Élevée within a week, Moyenne within 30 days, Basse beyond.
   */
  function PriorityOf(status: Status, daysUntil: int): (p: Priority)
    ensures status == Maintenance ==> p == Elevee
    ensures status != Maintenance ==> (p == Elevee <==> daysUntil < 7)
    ensures status != Maintenance ==> (p == Moyenne <==> 7 <= daysUntil < 30)
    ensures status != Maintenance ==> (p == Basse <==> daysUntil >= 30)
  {
    if status == Maintenance then Elevee
    else if daysUntil < 7 then Elevee
    else if daysUntil < 30 then Moyenne
    else Basse
  }

  /** The later the next maintenance, the less urgent (never more urgent) the priority. */
  lemma PriorityMonotone(status: Status, d1: int, d2: int)
    requires d1 <= d2
    ensures Rank(PriorityOf(status, d1)) <= Rank(PriorityOf(status, d2))
  {
    RankOrder();
  }

  /** A transmitter under maintenance is at least as urgent as any other, whatever the draws. */
  lemma MaintenanceMostUrgent(d: int, other: Status, d': int)
    ensures Rank(PriorityOf(Maintenance, d)) <= Rank(PriorityOf(other, d'))
  {
    RankOrder();
  }

  const Tasks: seq<string> := ["Vérification antenne", "Calibrage fréquence", "Remplacement pièces", "Mise à jour logiciel"]

  /**
   The draws for one row: days until the next maintenance (`randint(1, 90)`,
   used only when the transmitter is not under maintenance), the date that
   many days from today, and which of the four maintenance jobs is listed.
   */
  datatype ScheduleDraw = ScheduleDraw(daysUntil: int, dueDate: Date, task: nat)

  /**
   The ranges of the draws: `daysUntil` in 1..90, so the due date, that many
   days after today, is strictly later than today.
   */
  predicate ValidScheduleDraw(d: ScheduleDraw, today: Date)
  {
    && 1 <= d.daysUntil <= 90
    && WellFormedDate(d.dueDate)
    && !DateLe(d.dueDate, today)
    && d.task < |Tasks|
  }

  datatype Row = Row(
    emitterId: string,
    name: string,
    status: Status,
    lastMaintenance: string,
    nextMaintenance: string,
    priority: Priority,
    technician: string,
    task: string)

  /** The next-maintenance date: today for a transmitter under maintenance, else the drawn date. */
  function NextDate(status: Status, d: ScheduleDraw, today: Date): Date
  {
    if status == Maintenance then today else d.dueDate
  }

  /** The row of one transmitter: its own fields, plus next date, priority and task. */
  function BuildRow(e: Emitter, d: ScheduleDraw, today: Date): (row: Row)
    requires d.task < |Tasks|
    ensures row.emitterId == e.id && row.name == e.name && row.status == e.status
    ensures row.lastMaintenance == e.lastMaintenance && row.technician == e.technician
    ensures row.nextMaintenance == FormatDate(NextDate(e.status, d, today))
    ensures row.priority == PriorityOf(e.status, d.daysUntil)
    ensures row.task in Tasks
    ensures e.status == Maintenance ==> row.priority == Elevee
  {
    Row(e.id, e.name, e.status, e.lastMaintenance, FormatDate(NextDate(e.status, d, today)),
        PriorityOf(e.status, d.daysUntil), e.technician, Tasks[d.task])
  }

  /** Under maintenance implies Élevée: the consistency every built row has. */
  predicate Consistent(row: Row)
  {
    row.status == Maintenance ==> row.priority == Elevee
  }

  /** The unsorted schedule, one row per transmitter in fleet order. */
  function BuildSchedule(es: seq<Emitter>, draws: seq<ScheduleDraw>, today: Date): (rows: seq<Row>)
    requires |draws| == |es|
    requires forall i :: 0 <= i < |draws| ==> draws[i].task < |Tasks|
    ensures |rows| == |es|
    ensures forall i :: 0 <= i < |rows| ==> rows[i] == BuildRow(es[i], draws[i], today)
    ensures forall i :: 0 <= i < |rows| ==> Consistent(rows[i])
  {
    seq(|es|, i requires 0 <= i < |es| => BuildRow(es[i], draws[i], today))
  }

  /** The schedule order: by priority rank, then by next-maintenance date string. */
  predicate RowLe(a: Row, b: Row)
  {
    Rank(a.priority) < Rank(b.priority)
    || (Rank(a.priority) == Rank(b.priority) && LexLe(a.nextMaintenance, b.nextMaintenance))
  }

  function ScheduleOrder(): (Row, Row) -> bool
  {
    (a: Row, b: Row) => RowLe(a, b)
  }

  lemma ScheduleOrderTotalPreorder()
    ensures TotalPreorder(ScheduleOrder())
  {
    forall a: Row, b: Row
      ensures RowLe(a, b) || RowLe(b, a)
    {
      LexLeTotal(a.nextMaintenance, b.nextMaintenance);
    }
    forall a: Row, b: Row, c: Row | RowLe(a, b) && RowLe(b, c)
      ensures RowLe(a, c)
    {
      if Rank(a.priority) == Rank(b.priority) == Rank(c.priority) {
        LexLeTransitive(a.nextMaintenance, b.nextMaintenance, c.nextMaintenance);
      }
    }
  }

  /**
   `sort_values(['priorite_order', 'prochaine_maintenance'])`: a permutation
   of the rows, sorted by rank and, within a rank, by date string.
   */
  function SortSchedule(rows: seq<Row>): (r: seq<Row>)
    ensures multiset(r) == multiset(rows)
    ensures forall i, j :: 0 <= i < j < |r| ==> Rank(r[i].priority) <= Rank(r[j].priority)
    ensures forall i, j :: 0 <= i < j < |r| && r[i].priority == r[j].priority ==>
              LexLe(r[i].nextMaintenance, r[j].nextMaintenance)
  {
    ScheduleOrderTotalPreorder();
    var r := InsertionSort(rows, ScheduleOrder());
    assert forall i, j :: 0 <= i < j < |r| ==> RowLe(r[i], r[j]);
    r
  }

  /** Rows in the same slot: the same priority and the same next-maintenance string. */
  function SameSlot(x: Row): Row -> bool
  {
    (y: Row) => y.priority == x.priority && y.nextMaintenance == x.nextMaintenance
  }

  /**
   The two-column sort is stable: the rows sharing a slot (priority and
   next-maintenance date) come out in the order they went in.
   */
  lemma SortScheduleStable(rows: seq<Row>, x: Row)
    ensures Select(SortSchedule(rows), SameSlot(x)) == Select(rows, SameSlot(x))
  {
    var le := ScheduleOrder();
    ScheduleOrderTotalPreorder();
    var r := InsertionSort(rows, le);
    assert SortSchedule(rows) == r;
    InsertionSortStable(rows, le, x);
    TiesAreSlots(r, x);
    TiesAreSlots(rows, x);
  }

  /** Under the schedule order, being tied with `x` is being in `x`'s slot. */
  lemma TiesAreSlots(s: seq<Row>, x: Row)
    ensures Select(s, Ties(ScheduleOrder(), x)) == Select(s, SameSlot(x))
  {
    forall i | 0 <= i < |s|
      ensures Ties(ScheduleOrder(), x)(s[i]) == SameSlot(x)(s[i])
    {
      var y := s[i];
      RankOrder();
      if RowLe(x, y) && RowLe(y, x) {
        LexLeAntisymmetric(x.nextMaintenance, y.nextMaintenance);
      }
      if SameSlot(x)(y) {
        LexLeReflexive(x.nextMaintenance);
      }
    }
    SelectExtensional(s, Ties(ScheduleOrder(), x), SameSlot(x));
  }

  /** For well-formed dates, comparing next-maintenance strings is comparing the dates. */
  lemma NextDateOrder(s1: Status, d1: ScheduleDraw, s2: Status, d2: ScheduleDraw, today: Date)
    requires WellFormedDate(today) && WellFormedDate(d1.dueDate) && WellFormedDate(d2.dueDate)
    ensures LexLe(FormatDate(NextDate(s1, d1, today)), FormatDate(NextDate(s2, d2, today))) <==>
              DateLe(NextDate(s1, d1, today), NextDate(s2, d2, today))
  {
    DateStringOrder(NextDate(s1, d1, today), NextDate(s2, d2, today));
  }

  /** The status badge: `En cours` under maintenance, `Urgent` for other Élevée rows, `Planifié` otherwise. */
  datatype Badge = EnCours | Urgent | Planifie

  function BadgeOf(row: Row): Badge
  {
    if row.status == Maintenance then EnCours
    else if row.priority == Elevee then Urgent
    else Planifie
  }

  /** The badge of a built row, in terms of the transmitter and the days drawn. */
  lemma BadgeOfBuiltRow(e: Emitter, d: ScheduleDraw, today: Date)
    requires d.task < |Tasks|
    ensures BadgeOf(BuildRow(e, d, today)) == EnCours <==> e.status == Maintenance
    ensures BadgeOf(BuildRow(e, d, today)) == Urgent <==> e.status != Maintenance && d.daysUntil < 7
    ensures BadgeOf(BuildRow(e, d, today)) == Planifie <==> e.status != Maintenance && d.daysUntil >= 7
  {
  }

  /** A row is badged `Planifié` exactly when its rank is not the most urgent one. */
  lemma PlanifieIffNotTopRank(row: Row)
    requires Consistent(row)
    ensures BadgeOf(row) == Planifie <==> Rank(row.priority) > 0
  {
    RankOrder();
  }

  /**
   The maintenance view: the schedule rows sorted; a permutation of the
   built rows in which no `Planifié` row comes before an `En cours` or
   `Urgent` one.
   */
  function MaintenanceView(es: seq<Emitter>, draws: seq<ScheduleDraw>, today: Date): (r: seq<Row>)
    requires |draws| == |es|
    requires forall i :: 0 <= i < |draws| ==> draws[i].task < |Tasks|
    ensures |r| == |es|
    ensures multiset(r) == multiset(BuildSchedule(es, draws, today))
    ensures forall i, j :: 0 <= i < j < |r| && BadgeOf(r[i]) == Planifie ==> BadgeOf(r[j]) == Planifie
  {
    var rows := BuildSchedule(es, draws, today);
    var r := SortSchedule(rows);
    assert |r| == |multiset(r)| == |multiset(rows)| == |rows|;
    forall i | 0 <= i < |r|
      ensures Consistent(r[i])
    {
      assert r[i] in multiset(rows);
    }
    forall i, j | 0 <= i < j < |r| && BadgeOf(r[i]) == Planifie
      ensures BadgeOf(r[j]) == Planifie
    {
      PlanifieIffNotTopRank(r[i]);
      PlanifieIffNotTopRank(r[j]);
    }
    r
  }

  /** No `Urgent` row comes before an `En cours` row. */
  predicate EnCoursFirst(r: seq<Row>)
  {
    forall i, j :: 0 <= i < j < |r| && BadgeOf(r[i]) == Urgent ==> BadgeOf(r[j]) != EnCours
  }

  /**
   With draws in range, every `En cours` row (dated today) comes before every
   `Urgent` row (dated strictly later, with the same priority Élevée).
   */
  lemma EnCoursBeforeUrgent(es: seq<Emitter>, draws: seq<ScheduleDraw>, today: Date)
    requires |draws| == |es|
    requires WellFormedDate(today)
    requires forall i :: 0 <= i < |draws| ==> ValidScheduleDraw(draws[i], today)
    ensures forall i :: 0 <= i < |draws| ==> draws[i].task < |Tasks|
    ensures EnCoursFirst(MaintenanceView(es, draws, today))
  {
    var rows := BuildSchedule(es, draws, today);
    var r := MaintenanceView(es, draws, today);
    assert r == SortSchedule(rows);
    forall i, j | 0 <= i < j < |r| && BadgeOf(r[i]) == Urgent
      ensures BadgeOf(r[j]) != EnCours
    {
      var a := BuiltFrom(es, draws, today, r[i]);
      var b := BuiltFrom(es, draws, today, r[j]);
      if BadgeOf(r[j]) == EnCours {
        UrgentAfterToday(es[a], draws[a], es[b], draws[b], today);
      }
    }
  }

  /** Every row of a permutation of the built schedule is the row built for some transmitter. */
  lemma BuiltFrom(es: seq<Emitter>, draws: seq<ScheduleDraw>, today: Date, x: Row) returns (a: nat)
    requires |draws| == |es|
    requires forall i :: 0 <= i < |draws| ==> draws[i].task < |Tasks|
    requires x in multiset(BuildSchedule(es, draws, today))
    ensures a < |es| && x == BuildRow(es[a], draws[a], today)
  {
    var rows := BuildSchedule(es, draws, today);
    assert x in rows;
    a :| 0 <= a < |rows| && rows[a] == x;
  }

  /** An `Urgent` row's date string sorts strictly after an `En cours` row's. */
  lemma UrgentAfterToday(u: Emitter, du: ScheduleDraw, m: Emitter, dm: ScheduleDraw, today: Date)
    requires WellFormedDate(today) && ValidScheduleDraw(du, today) && dm.task < |Tasks|
    requires BadgeOf(BuildRow(u, du, today)) == Urgent && BadgeOf(BuildRow(m, dm, today)) == EnCours
    ensures BuildRow(u, du, today).priority == BuildRow(m, dm, today).priority
    ensures !LexLe(BuildRow(u, du, today).nextMaintenance, BuildRow(m, dm, today).nextMaintenance)
  {
    DateStringOrder(du.dueDate, today);
  }
}
