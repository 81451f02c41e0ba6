/** The chat message announcing new rows (pnp-scraper-notifier.js:152-153): a
    header line stating how many rows are new, then one line per new row. */
module Notification {
  import opened Inventory
  import opened Strings

  const HeaderPrefix: string := "Found "
  const HeaderSuffix: string := " new Hyundai Accents:"

  /** The scraped rows carry no `row` field, so the template prints the text of an
      undefined value in its place. */
  const RowText: string := "undefined"

  const DateLabel: string := "Date Added: "
  const YearLabel: string := ", Year: "
  const ColourLabel: string := ", Colour: "
  const RowLabel: string := ", Row: "

  /** The fixed parts of the header and of a row line hold no line break. */
  lemma FixedTextIsOneLine()
    ensures '\n' !in HeaderPrefix && '\n' !in HeaderSuffix
    ensures '\n' !in DateLabel && '\n' !in YearLabel && '\n' !in ColourLabel && '\n' !in RowLabel + RowText
  {
  }

  /** The header line. The number it prints between its fixed prefix and suffix
      reads back as the count, and it holds no line break. */
  function Header(count: nat): (h: string)
    ensures |h| > |HeaderPrefix| + |HeaderSuffix|
    ensures HeaderPrefix <= h && h[|h| - |HeaderSuffix|..] == HeaderSuffix
    ensures var digits := h[|HeaderPrefix|..|h| - |HeaderSuffix|];
            IsDigits(digits) && ParseDecimal(digits) == count
    ensures '\n' !in h
  {
    var d := Decimal(count);
    Middle(HeaderPrefix, d, HeaderSuffix);
    DecimalRoundTrip(count);
    FixedTextIsOneLine();
    assert forall i :: 0 <= i < |d| ==> d[i] != '\n';
    HeaderPrefix + d + HeaderSuffix
  }

  /** The line for one row: its date added, year and colour, each after its
      label, then the row text. It breaks no further lines than those fields do. */
  function Line(e: Item): (l: string)
    ensures var y := |DateLabel| + |e.dateAdded| + |YearLabel|;
            var c := y + |e.year| + |ColourLabel|;
            |l| == c + |e.color| + |RowLabel| + |RowText| &&
            l[..|DateLabel|] == DateLabel && l[|DateLabel|..|DateLabel| + |e.dateAdded|] == e.dateAdded &&
            l[y - |YearLabel|..y] == YearLabel && l[y..y + |e.year|] == e.year &&
            l[c - |ColourLabel|..c] == ColourLabel && l[c..c + |e.color|] == e.color &&
            l[|l| - |RowText| - |RowLabel|..] == RowLabel + RowText
    ensures SingleLine(e) ==> '\n' !in l
  {
    EightParts(DateLabel, e.dateAdded, YearLabel, e.year, ColourLabel, e.color, RowLabel, RowText);
    FixedTextIsOneLine();
    DateLabel + e.dateAdded + YearLabel + e.year + ColourLabel + e.color + RowLabel + RowText
  }

  /** `entries.map(Line)` */
  function Lines(entries: Snapshot): (lines: seq<string>)
    ensures |lines| == |entries|
    ensures forall i :: 0 <= i < |entries| ==> lines[i] == Line(entries[i])
  {
    if entries == [] then [] else [Line(entries[0])] + Lines(entries[1..])
  }

  /** The fields a line shows hold no line break of their own. */
  predicate SingleLine(e: Item)
  {
    '\n' !in e.dateAdded && '\n' !in e.year && '\n' !in e.color
  }

  lemma LinesAreSingle(entries: Snapshot)
    requires forall e :: e in entries ==> SingleLine(e)
    ensures forall k :: 0 <= k < |entries| ==> '\n' !in Lines(entries)[k]
  {
    forall k | 0 <= k < |entries| ensures '\n' !in Lines(entries)[k] {
      assert entries[k] in entries;
    }
  }

  /** The header line, a line break, and the entry lines joined by line breaks
      split back into the header and the entry lines. */
  lemma HeaderThenLines(count: nat, entries: Snapshot)
    ensures entries != [] && (forall e :: e in entries ==> SingleLine(e)) ==>
      Split(Header(count) + "\n" + Join(Lines(entries), '\n'), '\n') == [Header(count)] + Lines(entries)
  {
    if entries != [] && (forall e :: e in entries ==> SingleLine(e)) {
      LinesAreSingle(entries);
      SplitAfterHeader(Header(count), Lines(entries), '\n');
    }
  }

  /** The header, a line break, and the entry lines joined by line breaks. Read
      line by line, it is the header followed by exactly one line per new row, in
      the order of the rows. */
  function Message(entries: Snapshot): (text: string)
    ensures Header(|entries|) + "\n" <= text
    ensures entries != [] && (forall e :: e in entries ==> SingleLine(e)) ==>
      Split(text, '\n') == [Header(|entries|)] + Lines(entries)
  {
    HeaderThenLines(|entries|, entries);
    Header(|entries|) + "\n" + Join(Lines(entries), '\n')
  }
}
