/**
 * What one row of the loan table shows: the status badge, the days-remaining
 * cell (its urgency class and its label) and, on the history tab, the loan's
 * duration instead; and whether the row offers the "return" button. The
 * current instant `now` is a parameter. Instants are integer milliseconds,
 * and `Math.ceil(ms / 86400000)` is integer ceiling division.
 */
module LoanRow {
  import opened Wrappers
  import opened Text
  import opened Entities
  import LoanFilter

  /** The badge shown for a loan state. */
  datatype StatusInfo = StatusInfo(className: string, icon: string, labelText: string)

  const CurrentInfo := StatusInfo("status-current", "fa-clock", "En cours")
  const OverdueInfo := StatusInfo("status-overdue", "fa-exclamation-triangle", "En retard")
  const ReturnedInfo := StatusInfo("status-returned", "fa-check-circle", "Retourné")

  /** `getStatusInfo`: total on strings; anything unrecognised reads as "in progress". */
  function GetStatusInfo(statut: string): (info: StatusInfo)
    ensures info == OverdueInfo <==> statut == "EN_RETARD"
    ensures info == ReturnedInfo <==> statut == "RETOURNE"
    ensures info == CurrentInfo <==> statut != "EN_RETARD" && statut != "RETOURNE"
  {
    match statut
    case "EN_COURS" => CurrentInfo
    case "EN_RETARD" => OverdueInfo
    case "RETOURNE" => ReturnedInfo
    case _ => CurrentInfo
  }

  /** Distinct loan states get distinct badges, and a string that is not a loan state gets the in-progress badge. */
  lemma StatusInfoSeparatesStates(s: Statut, t: Statut, other: string)
    requires ParseStatut(other) == None
    ensures GetStatusInfo(StatutCode(s)) == GetStatusInfo(StatutCode(t)) <==> s == t
    ensures GetStatusInfo(other) == GetStatusInfo(StatutCode(EnCours))
  {
  }

  /** One day in milliseconds. */
  const DayMs := 1000 * 60 * 60 * 24

  /** Whole days covering a span of `ms` milliseconds, rounded up: the least `d` with `d` days at least `ms`. */
  function CeilDays(ms: int): (d: int)
    ensures d * DayMs >= ms
    ensures (d - 1) * DayMs < ms
  {
    -((-ms) / DayMs)
  }

  /** `getDaysRemaining`: whole days from `now` until the due instant, rounded up. */
  function DaysRemaining(due: int, now: int): (d: int)
    ensures d * DayMs >= due - now
    ensures (d - 1) * DayMs < due - now
  {
    CeilDays(due - now)
  }

  /** A due instant a whole number `k` of days from now shows exactly `k`. */
  lemma DaysRemainingOfWholeDays(now: int, k: int)
    ensures DaysRemaining(now + k * DayMs, now) == k
  {
  }

  /** The days-remaining count is negative iff the due instant lies at least one full day in the past. */
  lemma DaysRemainingNegativeIff(due: int, now: int)
    ensures DaysRemaining(due, now) < 0 <==> due <= now - DayMs
  {
  }

  /** The three classes of the days-remaining cell. */
  datatype Urgency = Late | Warning | Normal

  /** The urgency ternary: negative days is late, up to three days is a warning, more is normal. */
  function UrgencyOf(d: int): (u: Urgency)
    ensures u == Late <==> d < 0
    ensures u == Warning <==> 0 <= d <= 3
    ensures u == Normal <==> d > 3
  {
    if d < 0 then Late else if d <= 3 then Warning else Normal
  }

  /** The class name of the days-remaining cell: one per urgency, and no two urgencies share one. */
  function UrgencyClass(u: Urgency): (c: string)
    ensures c == "overdue" <==> u == Late
    ensures c == "warning" <==> u == Warning
    ensures c == "normal" <==> u == Normal
  {
    match u
    case Late => "overdue"
    case Warning => "warning"
    case Normal => "normal"
  }

  /** Fewer days left never gives a less urgent class. */
  lemma UrgencyMonotone(d: int, e: int)
    requires d <= e
    ensures UrgencyOf(e) == Late ==> UrgencyOf(d) == Late
    ensures UrgencyOf(d) == Normal ==> UrgencyOf(e) == Normal
  {
  }

  /** The urgency of a loan in terms of its due instant and the current instant. */
  lemma UrgencyByDueDate(due: int, now: int)
    ensures UrgencyOf(DaysRemaining(due, now)) == Late <==> due <= now - DayMs
    ensures UrgencyOf(DaysRemaining(due, now)) == Warning <==> now - DayMs < due <= now + 3 * DayMs
    ensures UrgencyOf(DaysRemaining(due, now)) == Normal <==> due > now + 3 * DayMs
  {
  }

  /** A negative count `d` shown as its magnitude followed by " jours de retard" reads back as `d`. */
  lemma LateLabelReads(d: int)
    requires d < 0
    ensures ParseRemainingLabel(Decimal(-d) + " jours de retard") == Some(d)
  {
    var late := " jours de retard";
    NonNegativeTextRoundTrip(-d, late);
    assert late != " jours";
  }

  /** A count `d >= 0` followed by " jours" reads back as `d`. */
  lemma OnTimeLabelReads(d: int)
    requires d >= 0
    ensures ParseRemainingLabel(Decimal(d) + " jours") == Some(d)
  {
    NonNegativeTextRoundTrip(d, " jours");
  }

  /**
   * The days-remaining label: the days late, or the days left. It shows the
   * signed count exactly: reading the label back gives the count.
   */
  function RemainingLabel(d: int): (r: string)
    ensures ParseRemainingLabel(r) == Some(d)
  {
    if d < 0 then
      LateLabelReads(d);
      Decimal(-d) + " jours de retard"
    else
      OnTimeLabelReads(d);
      Decimal(d) + " jours"
  }

  /** Reads a days-remaining label back into the signed day count it shows. */
  function ParseRemainingLabel(s: string): Option<int> {
    match ParseIntPrefix(s)
    case Some((n, rest)) =>
      if n >= 0 && rest == " jours" then Some(n)
      else if n >= 0 && rest == " jours de retard" then Some(-n)
      else None
    case None => None
  }

  /** `getDuration`: on the history tab, for a returned loan, the whole days from loan to return, rounded up. */
  function HistoryDuration(filter: LoanFilter.ListFilter, e: Emprunt): (r: Option<int>)
    ensures r.Some? <==> filter == LoanFilter.History && e.dateRetourEffectif.Some?
    ensures r.Some? ==> r.value * DayMs >= e.dateRetourEffectif.value - e.dateEmprunt
    ensures r.Some? ==> (r.value - 1) * DayMs < e.dateRetourEffectif.value - e.dateEmprunt
  {
    if filter == LoanFilter.History && e.dateRetourEffectif.Some? then
      Some(CeilDays(e.dateRetourEffectif.value - e.dateEmprunt))
    else
      None
  }

  /** A signed count followed by " jours" reads back as that count. */
  lemma DurationReads(d: int)
    ensures ParseDurationText(IntText(d) + " jours") == Some(d)
  {
    IntTextRoundTrip(d, " jours");
  }

  /** The history cell, `duration || "-"`: "-" iff there is no duration, and otherwise text that reads back as the duration. */
  function DurationText(filter: LoanFilter.ListFilter, e: Emprunt): (r: string)
    ensures ParseDurationText(r) == HistoryDuration(filter, e)
    ensures r == "-" <==> HistoryDuration(filter, e) == None
  {
    match HistoryDuration(filter, e)
    case Some(d) =>
      DurationReads(d);
      IntText(d) + " jours"
    case None =>
      assert ParseIntPrefix("-") == None;
      "-"
  }

  function ParseDurationText(s: string): Option<int> {
    match ParseIntPrefix(s)
    case Some((n, rest)) => if rest == " jours" then Some(n) else None
    case None => None
  }

  /** The class and text of a row's "days remaining" (or "duration") cell. */
  datatype Cell = Cell(className: string, text: string)

  /**
   * The days-remaining cell. Off the history tab it shows the signed days
   * remaining, classed by the due date; on the history tab it is classed
   * "normal" and shows the duration, or "-".
   */
  function RemainingCell(filter: LoanFilter.ListFilter, e: Emprunt, now: int): (c: Cell)
    ensures filter != LoanFilter.History ==>
              ParseRemainingLabel(c.text) == Some(DaysRemaining(e.dateRetourPrevu, now))
    ensures filter != LoanFilter.History ==>
              (c.className == "overdue" <==> e.dateRetourPrevu <= now - DayMs)
    ensures filter != LoanFilter.History ==>
              (c.className == "warning" <==> now - DayMs < e.dateRetourPrevu <= now + 3 * DayMs)
    ensures filter != LoanFilter.History ==>
              (c.className == "normal" <==> e.dateRetourPrevu > now + 3 * DayMs)
    ensures filter == LoanFilter.History ==> c.className == "normal"
    ensures filter == LoanFilter.History ==> ParseDurationText(c.text) == HistoryDuration(filter, e)
  {
    if filter == LoanFilter.History then
      Cell("normal", DurationText(filter, e))
    else
      var d := DaysRemaining(e.dateRetourPrevu, now);
      UrgencyByDueDate(e.dateRetourPrevu, now);
      Cell(UrgencyClass(UrgencyOf(d)), RemainingLabel(d))
  }

  /**
   * The return button, `statut === "EN_COURS"` off the history tab. It tests
   * the raw string, so it agrees with the badge on the three loan states but
   * not on an unrecognised string, which gets the in-progress badge and no button.
   */
  function ShowsReturnAction(filter: LoanFilter.ListFilter, statut: string): (r: bool)
    ensures r <==> filter != LoanFilter.History && ParseStatut(statut) == Some(EnCours)
    ensures r ==> GetStatusInfo(statut) == CurrentInfo
  {
    filter != LoanFilter.History && statut == "EN_COURS"
  }

  /** Off the history tab, a row in one of the three loan states offers the return button iff its badge reads "in progress". */
  lemma ReturnActionMatchesBadge(filter: LoanFilter.ListFilter, s: Statut)
    ensures ShowsReturnAction(filter, StatutCode(s))
        <==> filter != LoanFilter.History && GetStatusInfo(StatutCode(s)) == CurrentInfo
  {
    StatutRoundTrip(s);
  }

  /** A string that is no loan state shows the in-progress badge, yet never the return button. */
  lemma UnknownStatusBadgeWithoutButton(filter: LoanFilter.ListFilter, statut: string)
    requires ParseStatut(statut) == None
    ensures GetStatusInfo(statut) == CurrentInfo
    ensures !ShowsReturnAction(filter, statut)
  {
  }
}
