/** The one-line concert summary: name, day and month, a short source
    label, the counts and a unit word. */
module HandlerUtils {
  import opened Wrappers
  import opened Seqs
  import opened Strings
  import opened Concert

  /** `SRC_LABEL`. */
  const SrcLabel: map<Source, string> := map[Yandex := "ЯН", GoStandUp := "ГО", Timepad := "ТМ"]

  /** `SRC_LABEL.get(source, "?")`. */
  function Label(s: Source): string {
    if s in SrcLabel then SrcLabel[s] else "?"
  }

  /** The table covers the closed set of sources, so the "?" fallback is
      never shown, and no two sources share a label. */
  lemma LabelKnown(s: Source, t: Source)
    ensures Label(s) != "?"
    ensures Label(s) == Label(t) ==> s == t
  {
  }

  /** Registrations for Timepad, tickets for everyone else. */
  function Unit(s: Source): string {
    if s == Timepad then "регистраций" else "билетов"
  }

  /** `f"{sold}/{total}"`. */
  function CountsText(sold: int, total: int): string {
    IntToString(sold) + "/" + IntToString(total)
  }

  /** The prefix of a row: name, day and month, an opening parenthesis. */
  function Head(c: Row, dayMonth: int -> string): string {
    c.name + " " + dayMonth(c.date) + " ("
  }

  /** Everything before the counts. */
  function Lead(c: Row, dayMonth: int -> string): string {
    Head(c, dayMonth) + Label(c.source) + ") — "
  }

  /** `format_concert_row`. `dayMonth` stands for `strftime("%d/%m")`
      applied to the stored date. */
  function FormatConcertRow(c: Row, dayMonth: int -> string): (r: string)
    ensures |r| > |c.name| && r[..|c.name|] == c.name && r[|c.name|] == ' '
    ensures |r| > |Unit(c.source)| && r[|r| - |Unit(c.source)| - 1..] == " " + Unit(c.source)
  {
    var front := Lead(c, dayMonth) + CountsText(c.ticketsSold, c.ticketsTotal);
    var tail := " " + Unit(c.source);
    ConcatPrefix(c.name + " ", dayMonth(c.date) + " (" + Label(c.source) + ") — " + CountsText(c.ticketsSold, c.ticketsTotal) + tail);
    ConcatSuffix(front, tail);
    front + tail
  }

  predicate EndsWith(s: string, suffix: string) {
    |suffix| <= |s| && s[|s| - |suffix|..] == suffix
  }

  /** A row reads "регистраций" at the end exactly when it is a Timepad
      concert, and "билетов" exactly when it is not. */
  lemma UnitIffTimepad(c: Row, dayMonth: int -> string)
    ensures EndsWith(FormatConcertRow(c, dayMonth), "регистраций") <==> c.source == Timepad
    ensures EndsWith(FormatConcertRow(c, dayMonth), "билетов") <==> c.source != Timepad
  {
    var r := FormatConcertRow(c, dayMonth);
    var u := Unit(c.source);
    assert r[|r| - |u|..] == u by {
      assert r[|r| - |u| - 1..][1..] == r[|r| - |u|..];
    }
    assert r[|r| - 1] == u[|u| - 1];
  }

  /** The position of the first `c` in `s`. */
  function IndexOf(s: string, c: char): (r: Option<nat>)
    ensures r.Some? ==> r.value < |s| && s[r.value] == c && forall j :: 0 <= j < r.value ==> s[j] != c
    ensures r.None? ==> forall j :: 0 <= j < |s| ==> s[j] != c
  {
    if s == [] then None
    else if s[0] == c then Some(0)
    else
      match IndexOf(s[1..], c)
      case None => None
      case Some(k) => Some(k + 1)
  }

  /** Reads `"{sold}/{total}"` back. */
  function ParseCounts(t: string): Option<(int, int)> {
    match IndexOf(t, '/')
    case None => None
    case Some(k) =>
      match (ParseInt(t[..k]), ParseInt(t[k + 1..]))
      case (Some(a), Some(b)) => Some((a, b))
      case _ => None
  }

  /** The counts are printed verbatim: the count text reads back as the
      row's sold and total, whatever their sign. */
  lemma CountsRoundTrip(sold: int, total: int)
    ensures ParseCounts(CountsText(sold, total)) == Some((sold, total))
  {
    var a := IntToString(sold);
    var t := CountsText(sold, total);
    IntToStringChars(sold);
    assert forall j :: 0 <= j < |a| ==> t[j] == a[j];
    assert t[|a|] == '/';
    assert IndexOf(t, '/') == Some(|a|);
    assert t[..|a|] == a;
    assert t[|a| + 1..] == IntToString(total);
    IntToStringRoundTrip(sold);
    IntToStringRoundTrip(total);
  }

  /** The source label sits in parentheses right after the date. */
  lemma FormatConcertRowLabel(c: Row, dayMonth: int -> string)
    ensures var r := FormatConcertRow(c, dayMonth);
            var h := Head(c, dayMonth);
            && r[..|h|] == h
            && r[|h|..|h| + |Label(c.source)|] == Label(c.source)
            && r[|h| + |Label(c.source)|] == ')'
  {
    var r := FormatConcertRow(c, dayMonth);
    var m := Lead(c, dayMonth);
    var h := Head(c, dayMonth);
    var lab := Label(c.source);
    ConcatPrefix(m + CountsText(c.ticketsSold, c.ticketsTotal), " " + Unit(c.source));
    ConcatPrefix(m, CountsText(c.ticketsSold, c.ticketsTotal));
    assert r[..|m|] == m;
    ConcatMiddle(h, lab, ") — ");
    assert m[|h| + |lab|] == ')';
  }

  /** The counts follow the dash and read back as the row's counts. */
  lemma FormatConcertRowCounts(c: Row, dayMonth: int -> string)
    ensures var r := FormatConcertRow(c, dayMonth);
            var m := Lead(c, dayMonth);
            var counts := CountsText(c.ticketsSold, c.ticketsTotal);
            && r[|m|..|m| + |counts|] == counts
            && ParseCounts(r[|m|..|m| + |counts|]) == Some((c.ticketsSold, c.ticketsTotal))
  {
    var counts := CountsText(c.ticketsSold, c.ticketsTotal);
    ConcatMiddle(Lead(c, dayMonth), counts, " " + Unit(c.source));
    CountsRoundTrip(c.ticketsSold, c.ticketsTotal);
  }
}
