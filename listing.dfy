/** printDashboards: the bordered table of cached summaries, returned as its lines. */
module Listing {
  import opened Numbers
  import opened Summaries
  import opened Comprehension

  /** Width of the id column's field and of the title column's field. */
  const IdWidth: nat := 7
  const TitleWidth: nat := 50

  /** Width of a table line when every field fits: "| " id " | " title " |". */
  const LineWidth: nat := 2 + IdWidth + 3 + TitleWidth + 2

  function Repeat(c: char, n: nat): (r: string)
    ensures |r| == n
    ensures forall i :: 0 <= i < n ==> r[i] == c
  {
    seq(n, _ => c)
  }

  function Max(a: nat, b: nat): nat { if a < b then b else a }

  /** Python's f"{s:^w}": s centred in w columns, the smaller half of the padding on
      the left; a longer s is left as it is. */
  function Center(s: string, w: nat): string
  {
    if |s| >= w then s
    else
      var pad := w - |s|;
      Repeat(' ', pad / 2) + s + Repeat(' ', pad - pad / 2)
  }

  /** Centring pads to w columns with floor(padding/2) spaces before s and the rest after. */
  lemma CenterLayout(s: string, w: nat)
    ensures |Center(s, w)| == Max(w, |s|)
    ensures |s| <= w ==>
      var left := (w - |s|) / 2;
      && Center(s, w)[left..left + |s|] == s
      && (forall i :: 0 <= i < left ==> Center(s, w)[i] == ' ')
      && (forall i :: left + |s| <= i < w ==> Center(s, w)[i] == ' ')
      && (w - |s|) - left - left <= 1 && left <= (w - |s|) - left
    ensures |s| > w ==> Center(s, w) == s
  {
  }

  /** Python's f"{s:<w}": s followed by spaces up to w columns; a longer s is left as it is. */
  function LeftAlign(s: string, w: nat): string
  {
    if |s| >= w then s else s + Repeat(' ', w - |s|)
  }

  lemma LeftAlignLayout(s: string, w: nat)
    ensures |LeftAlign(s, w)| == Max(w, |s|)
    ensures LeftAlign(s, w)[..|s|] == s
    ensures forall i :: |s| <= i < |LeftAlign(s, w)| ==> LeftAlign(s, w)[i] == ' '
  {
  }

  /** f'+{"-"*9}+{"-"*52}+'. */
  function Border(): string
  {
    "+" + Repeat('-', IdWidth + 2) + "+" + Repeat('-', TitleWidth + 2) + "+"
  }

  /** A border is '+', 9 dashes, '+', 52 dashes, '+'. */
  lemma BorderLayout()
    ensures |Border()| == LineWidth == 64
    ensures Border()[0] == '+' && Border()[IdWidth + 3] == '+' && Border()[LineWidth - 1] == '+'
    ensures forall i :: 0 < i < LineWidth - 1 && i != IdWidth + 3 ==> Border()[i] == '-'
  {
  }

  /** f'| {idText:^7} | {title:<50} |'. */
  function Row(idText: string, title: string): string
  {
    "| " + Center(idText, IdWidth) + " | " + LeftAlign(title, TitleWidth) + " |"
  }

  /** A row is as wide as its fields allow; when both fit, it is as wide as a border,
      its bars stand where the border has '+', and the title starts in column 12. */
  lemma RowLayout(idText: string, title: string)
    ensures |Row(idText, title)| == 2 + Max(IdWidth, |idText|) + 3 + Max(TitleWidth, |title|) + 2
    ensures |idText| <= IdWidth && |title| <= TitleWidth ==>
      var r := Row(idText, title);
      |r| == LineWidth && r[0] == '|' && r[IdWidth + 3] == '|' && r[LineWidth - 1] == '|'
      && r[2 + IdWidth + 3..2 + IdWidth + 3 + |title|] == title
  {
    CenterLayout(idText, IdWidth);
    LeftAlignLayout(title, TitleWidth);
    var c := Center(idText, IdWidth);
    var l := LeftAlign(title, TitleWidth);
    var r := "| " + c + " | " + l + " |";
    assert |idText| <= IdWidth && |title| <= TitleWidth ==>
      r[2 + IdWidth + 3..2 + IdWidth + 3 + |title|] == l[..|title|];
  }

  /** The heading line: "ID" centred, "Dashboard Name" left-aligned. */
  function Header(): string
  {
    Row("ID", "Dashboard Name")
  }

  /** The line printed for one summary: its id as str() prints it, and its title. */
  function SummaryRow(d: Summary): string
  {
    Row(ShowInt(d.id), d.title)
  }

  /** The lines printDashboards prints. */
  function Table(dashboards: seq<Summary>): seq<string>
  {
    [Border(), Header(), Border()] + MapSeq(SummaryRow, dashboards) + [Border()]
  }

  /** printDashboards: the three heading lines, one row per cached summary from the
      loop, the closing border. */
  method PrintDashboards(dashboards: seq<Summary>) returns (lines: seq<string>)
    ensures lines == Table(dashboards)
  {
    var rows: seq<string> := [];
    for i := 0 to |dashboards|
      invariant rows == MapSeq(SummaryRow, dashboards[..i])
    {
      assert dashboards[..i + 1] == dashboards[..i] + [dashboards[i]];
      MapSeqSnoc(SummaryRow, dashboards[..i], dashboards[i]);
      rows := rows + [SummaryRow(dashboards[i])];
    }
    assert dashboards[..|dashboards|] == dashboards;
    lines := [Border(), Header(), Border()] + rows + [Border()];
  }

  /** The table has (number of summaries + 4) lines: a border, the heading, a border,
      one row per summary in cached order, and a closing border. */
  lemma TableLayout(dashboards: seq<Summary>)
    ensures |Table(dashboards)| == |dashboards| + 4
    ensures Table(dashboards)[0] == Table(dashboards)[2] == Table(dashboards)[|dashboards| + 3] == Border()
    ensures Table(dashboards)[1] == Header()
    ensures forall i :: 0 <= i < |dashboards| ==> Table(dashboards)[i + 3] == SummaryRow(dashboards[i])
  {
  }

  /** When every id and title fits its field, every line of the table is 64 wide. */
  lemma TableWidth(dashboards: seq<Summary>)
    requires forall i :: 0 <= i < |dashboards| ==>
      |ShowInt(dashboards[i].id)| <= IdWidth && |dashboards[i].title| <= TitleWidth
    ensures forall k :: 0 <= k < |Table(dashboards)| ==> |Table(dashboards)[k]| == LineWidth
  {
    TableLayout(dashboards);
    BorderLayout();
    RowLayout("ID", "Dashboard Name");
    forall k | 0 <= k < |Table(dashboards)| ensures |Table(dashboards)[k]| == LineWidth {
      if 3 <= k < |dashboards| + 3 {
        var d := dashboards[k - 3];
        assert Table(dashboards)[k] == SummaryRow(d);
        RowLayout(ShowInt(d.id), d.title);
      }
    }
  }

  /** A summary's row is exactly as wide as the borders when its id lies in
      (-10^6, 10^7), so that str() of it fits 7 columns, and its title has at most 50 characters. */
  lemma SummaryRowFits(d: Summary)
    requires -1000000 < d.id < 10000000 && |d.title| <= TitleWidth
    ensures |SummaryRow(d)| == |Border()| == LineWidth
  {
    IntFitsSeven(d.id);
    RowLayout(ShowInt(d.id), d.title);
    BorderLayout();
  }

  /** Python centres "ID" in 7 columns as two spaces, "ID", three spaces. */
  lemma CenterExample()
    ensures Center("ID", IdWidth) == "  ID   "
  {
    assert Repeat(' ', 2) == "  " && Repeat(' ', 3) == "   ";
  }
}
