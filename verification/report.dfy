/** `GaleraStatus.__str__`: the multi-section text report.

    The report is a header followed by one section per field that holds a
    truthy value, in the order status, uuid, primary, members, index. The
    only way rendering fails is the `ValueError` of `int(index)` when members
    are listed and the index is not an integer. */
module Report {
  import opened Wrappers
  import Ascii
  import Text
  import opened GaleraStatus

  /** The `ValueError` raised by `int()` on the stored index. */
  datatype RenderError = IndexNotAnInteger(index: string)

  datatype Section =
    | StatusSection(status: string)
    | UuidSection(uuid: string)
    | PrimarySection(primary: string)
    | MembersSection(block: string)
    | IndexSection(index: string)

  function FieldOf(sec: Section): Field
  {
    match sec
    case StatusSection(_) => StatusField
    case UuidSection(_) => UuidField
    case PrimarySection(_) => PrimaryField
    case MembersSection(_) => MembersField
    case IndexSection(_) => IndexField
  }

  /** Position of a field's section in the report. */
  function Rank(f: Field): nat
  {
    match f
    case StatusField => 0
    case UuidField => 1
    case PrimaryField => 2
    case MembersField => 3
    case IndexField => 4
  }

  /** The header up to the optional plural "s". */
  function Stem(server: string): string
  {
    "Galera running on " + server + " has reported the following cluster membership change"
  }

  /** The header line and blank line; "changes" exactly when the counter is
      positive. */
  function Header(server: string, count: int): (h: string)
    ensures |h| > |Stem(server)|
    ensures h[..|Stem(server)|] == Stem(server)
    ensures count > 0 <==> h[|Stem(server)|..] == "s:\n\n"
    ensures count <= 0 <==> h[|Stem(server)|..] == ":\n\n"
  {
    Stem(server) + (if count > 0 then "s" else "") + ":\n\n"
  }

  function Marker(i: int, k: int): string
  {
    if i == k then "-> " else "-- "
  }

  /** Whether a member line carries the "current node" marker. */
  predicate IsCurrent(line: string)
  {
    |line| >= 3 && line[..3] == "-> "
  }

  /** The member lines when the index parsed to `k`: one line per member, in
      order, the one at position `k` marked "-> " and every other "-- ". */
  function MarkedLines(ms: seq<string>, k: int): (lines: seq<string>)
    ensures |lines| == |ms|
    ensures forall i :: 0 <= i < |ms| ==> lines[i] == Marker(i, k) + ms[i] + "\n"
    ensures forall i :: 0 <= i < |ms| ==> (IsCurrent(lines[i]) <==> i == k)
    ensures (exists i :: 0 <= i < |ms| && IsCurrent(lines[i])) <==> 0 <= k < |ms|
  {
    if |ms| == 0 then []
    else
      var rest := MarkedLines(ms[1..], k - 1);
      var lines := [Marker(0, k) + ms[0] + "\n"] + rest;
      assert forall i :: 1 <= i < |ms| ==> lines[i] == rest[i - 1];
      assert (Marker(0, k) + ms[0] + "\n")[..3] == Marker(0, k);
      assert 0 <= k < |ms| ==> IsCurrent(lines[k]);
      lines
  }

  /** The member lines without an index: each member indented by two spaces. */
  function IndentedLines(ms: seq<string>): (lines: seq<string>)
    ensures |lines| == |ms|
    ensures forall i :: 0 <= i < |ms| ==> lines[i] == "  " + ms[i]
  {
    seq(|ms|, i requires 0 <= i < |ms| => "  " + ms[i])
  }

  /** The member list body. With an index, each line ends in a newline; without
      one, the lines are joined by newlines. */
  function MemberBlock(ms: seq<string>, index: string): (r: Result<string, RenderError>)
    ensures r.Failure? <==> index != "" && Ascii.ParseInt(index).None?
  {
    if index != "" then
      match Ascii.ParseInt(index)
      case None => Failure(IndexNotAnInteger(index))
      case Some(k) => Success(Text.Concat(MarkedLines(ms, k)))
    else Success(Text.Join(IndentedLines(ms), "\n"))
  }

  /** Whether `sec` carries exactly what `st` stores for its field. */
  predicate Faithful(st: Status, sec: Section)
  {
    match sec
    case StatusSection(v) => st.status == Some(v)
    case UuidSection(v) => st.uuid == Some(v)
    case PrimarySection(v) => st.primary == v
    case MembersSection(b) => MemberBlock(st.members, st.index) == Success(b)
    case IndexSection(v) => st.index == v
  }

  /** The section field `f` contributes: none when the field is absent, one
      carrying the stored value otherwise. Only the member list can fail. */
  function SectionFor(st: Status, f: Field): (r: Result<seq<Section>, RenderError>)
    ensures r.Failure? <==> f == MembersField && |st.members| > 0 && st.index != "" && Ascii.ParseInt(st.index).None?
    ensures r.Success? ==> |r.value| <= 1 && (|r.value| == 1 <==> Present(st, f))
    ensures r.Success? && |r.value| == 1 ==> FieldOf(r.value[0]) == f && Faithful(st, r.value[0])
  {
    match f
    case StatusField => Success(if Truthy(st.status) then [StatusSection(st.status.value)] else [])
    case UuidField => Success(if Truthy(st.uuid) then [UuidSection(st.uuid.value)] else [])
    case PrimaryField => Success(if st.primary != "" then [PrimarySection(st.primary)] else [])
    case MembersField =>
      if |st.members| > 0 then
        match MemberBlock(st.members, st.index)
        case Failure(e) => Failure(e)
        case Success(b) => Success([MembersSection(b)])
      else Success([])
    case IndexField => Success(if st.index != "" then [IndexSection(st.index)] else [])
  }

  /** The sections of the fields `fs`, in the order of `fs`; the first failure
      aborts, as the exception does in the source. */
  function Collect(st: Status, fs: seq<Field>): Result<seq<Section>, RenderError>
  {
    if |fs| == 0 then Success([])
    else
      match SectionFor(st, fs[0])
      case Failure(e) => Failure(e)
      case Success(head) =>
        match Collect(st, fs[1..])
        case Failure(e) => Failure(e)
        case Success(tail) => Success(head + tail)
  }

  predicate InRankOrder(fs: seq<Field>)
  {
    forall i, j :: 0 <= i < j < |fs| ==> Rank(fs[i]) < Rank(fs[j])
  }

  function Fields(secs: seq<Section>): (fs: seq<Field>)
    ensures |fs| == |secs|
    ensures forall i :: 0 <= i < |secs| ==> fs[i] == FieldOf(secs[i])
  {
    if |secs| == 0 then [] else [FieldOf(secs[0])] + Fields(secs[1..])
  }

  lemma FieldsAppend(a: seq<Section>, b: seq<Section>)
    ensures Fields(a + b) == Fields(a) + Fields(b)
  {
  }

  /** Collecting fails exactly when the member list is among the fields and
      its index does not parse. */
  lemma {:induction false} CollectFailure(st: Status, fs: seq<Field>)
    ensures Collect(st, fs).Failure? <==>
      MembersField in fs && |st.members| > 0 && st.index != "" && Ascii.ParseInt(st.index).None?
  {
    if |fs| > 0 {
      CollectFailure(st, fs[1..]);
      assert forall f :: f in fs <==> f == fs[0] || f in fs[1..];
    }
  }

  /** A section is collected for exactly the present fields among `fs`. */
  lemma {:induction false} CollectPresence(st: Status, fs: seq<Field>)
    requires Collect(st, fs).Success?
    ensures forall f :: f in Fields(Collect(st, fs).value) <==> f in fs && Present(st, f)
  {
    if |fs| > 0 {
      CollectPresence(st, fs[1..]);
      assert forall f :: f in fs <==> f == fs[0] || f in fs[1..];
      FieldsAppend(SectionFor(st, fs[0]).value, Collect(st, fs[1..]).value);
    }
  }

  /** Every collected section carries what the record stores. */
  lemma {:induction false} CollectFaithful(st: Status, fs: seq<Field>)
    requires Collect(st, fs).Success?
    ensures forall i :: 0 <= i < |Collect(st, fs).value| ==> Faithful(st, Collect(st, fs).value[i])
  {
    if |fs| > 0 {
      CollectFaithful(st, fs[1..]);
    }
  }

  /** Prepending a field ranked before every field of `tf` keeps rank order. */
  lemma PrependInRankOrder(hf: seq<Field>, tf: seq<Field>, f: Field)
    requires |hf| <= 1 && (|hf| == 1 ==> hf[0] == f)
    requires InRankOrder(tf)
    requires forall g :: g in tf ==> Rank(f) < Rank(g)
    ensures InRankOrder(hf + tf)
  {
  }

  /** Every field after the first of a rank-ordered list ranks above it. */
  lemma TailRanksAbove(fs: seq<Field>, g: Field)
    requires |fs| > 0 && InRankOrder(fs)
    requires g in fs[1..]
    ensures Rank(fs[0]) < Rank(g)
  {
  }

  /** Sections come out in the order of `fs`. */
  lemma {:induction false} CollectOrder(st: Status, fs: seq<Field>)
    requires InRankOrder(fs)
    requires Collect(st, fs).Success?
    ensures InRankOrder(Fields(Collect(st, fs).value))
  {
    if |fs| > 0 {
      var tl := fs[1..];
      var h := SectionFor(st, fs[0]).value;
      var t := Collect(st, tl).value;
      assert Collect(st, fs).value == h + t;
      CollectOrder(st, tl);
      CollectPresence(st, tl);
      FieldsAppend(h, t);
      forall g | g in Fields(t)
        ensures Rank(fs[0]) < Rank(g)
      {
        TailRanksAbove(fs, g);
      }
      PrependInRankOrder(Fields(h), Fields(t), fs[0]);
    }
  }

  /** Report order of the fields. */
  const ReportOrder: seq<Field> := [StatusField, UuidField, PrimaryField, MembersField, IndexField]

  /** Every field is listed in report order, and ranks strictly increase. */
  lemma ReportOrderComplete()
    ensures forall f: Field :: f in ReportOrder
    ensures InRankOrder(ReportOrder)
  {
    forall f: Field
      ensures f in ReportOrder
    {
      assert ReportOrder[Rank(f)] == f;
    }
    forall i, j | 0 <= i < j < |ReportOrder|
      ensures Rank(ReportOrder[i]) < Rank(ReportOrder[j])
    {
      assert Rank(ReportOrder[i]) == i && Rank(ReportOrder[j]) == j;
    }
  }

  lemma ReportOrderSpec(st: Status)
    ensures Collect(st, ReportOrder).Failure? <==>
      |st.members| > 0 && st.index != "" && Ascii.ParseInt(st.index).None?
    ensures Collect(st, ReportOrder).Success? ==>
      && InRankOrder(Fields(Collect(st, ReportOrder).value))
      && (forall f :: f in Fields(Collect(st, ReportOrder).value) <==> Present(st, f))
      && (forall i :: 0 <= i < |Collect(st, ReportOrder).value| ==> Faithful(st, Collect(st, ReportOrder).value[i]))
  {
    ReportOrderComplete();
    CollectFailure(st, ReportOrder);
    if Collect(st, ReportOrder).Success? {
      CollectPresence(st, ReportOrder);
      CollectFaithful(st, ReportOrder);
      CollectOrder(st, ReportOrder);
    }
  }

  /** The sections of the report: exactly the present fields, in report
      order, each carrying the stored value. */
  function Sections(st: Status): (r: Result<seq<Section>, RenderError>)
    ensures r.Failure? <==> |st.members| > 0 && st.index != "" && Ascii.ParseInt(st.index).None?
    ensures r.Success? ==> InRankOrder(Fields(r.value))
    ensures r.Success? ==> forall f :: f in Fields(r.value) <==> Present(st, f)
    ensures r.Success? ==> forall i :: 0 <= i < |r.value| ==> Faithful(st, r.value[i])
  {
    ReportOrderSpec(st);
    Collect(st, ReportOrder)
  }

  function SectionText(sec: Section): string
  {
    match sec
    case StatusSection(v) => "Status of this node: " + v + "\n\n"
    case UuidSection(v) => "Cluster state UUID: " + v + "\n\n"
    case PrimarySection(v) => "Current cluster component is primary: " + v + "\n\n"
    case MembersSection(b) => "Current members of the component:\n" + b + "\n"
    case IndexSection(v) => "Index of this node in the member list: " + v + "\n"
  }

  function SectionsText(secs: seq<Section>): string
  {
    if |secs| == 0 then "" else SectionText(secs[0]) + SectionsText(secs[1..])
  }

  /** `str(status)`: the header followed by the text of each section. */
  function Render(st: Status): (r: Result<string, RenderError>)
    ensures r.Failure? <==> |st.members| > 0 && st.index != "" && Ascii.ParseInt(st.index).None?
    ensures r.Success? ==> Header(st.server, st.count) <= r.value
    ensures r.Success? ==>
      && Sections(st).Success?
      && r.value == Header(st.server, st.count) + SectionsText(Sections(st).value)
    ensures r.Success? && (forall f :: !Present(st, f)) ==> r.value == Header(st.server, st.count)
  {
    match Sections(st)
    case Failure(e) => Failure(e)
    case Success(secs) =>
      assert (forall f :: !Present(st, f)) ==> secs == [] by {
        if |secs| > 0 {
          assert Fields(secs)[0] in Fields(secs);
        }
      }
      Success(Header(st.server, st.count) + SectionsText(secs))
  }

  /** Without an index, the block has one line per member, in order, each
      indented by two spaces. Stated for members without a newline, because a
      member containing one spans several report lines. */
  lemma IndentedBlockLines(ms: seq<string>)
    requires |ms| > 0
    requires forall i :: 0 <= i < |ms| ==> '\n' !in ms[i]
    ensures MemberBlock(ms, "").Success?
    ensures Text.Split(MemberBlock(ms, "").value, '\n') == IndentedLines(ms)
  {
    var lines := IndentedLines(ms);
    assert forall i :: 0 <= i < |lines| ==> lines[i] == "  " + ms[i];
    Text.SplitJoin(lines, '\n');
  }

  /** With an index that parses to `k`, the block has one line per member, in
      order, each prefixed by its marker and ended by a newline. */
  lemma MarkedBlockLines(ms: seq<string>, index: string, k: int)
    requires index != "" && Ascii.ParseInt(index) == Some(k)
    requires forall i :: 0 <= i < |ms| ==> '\n' !in ms[i]
    ensures MemberBlock(ms, index).Success?
    ensures |Text.Split(MemberBlock(ms, index).value, '\n')| == |ms| + 1
    ensures Text.Split(MemberBlock(ms, index).value, '\n')[|ms|] == ""
    ensures forall i :: 0 <= i < |ms| ==>
      Text.Split(MemberBlock(ms, index).value, '\n')[i] == Marker(i, k) + ms[i]
  {
    var ps := seq(|ms|, i requires 0 <= i < |ms| => Marker(i, k) + ms[i]);
    var lines := MarkedLines(ms, k);
    forall i | 0 <= i < |ms|
      ensures '\n' !in ps[i]
    {
      assert ps[i] == Marker(i, k) + ms[i];
      assert '\n' !in Marker(i, k);
    }
    Text.SplitTerminated(lines, ps);
    var block := Text.Concat(lines);
    assert MemberBlock(ms, index) == Success(block);
    assert Text.Split(block, '\n') == ps + [""];
  }

  /** Example: members "a,b,c" with index "1" mark "b" only. */
  lemma MarkedExample()
    ensures MemberBlock(["a", "b", "c"], "1") == Success("-- a\n-> b\n-- c\n")
  {
    assert Ascii.DigitsValue("1") == 1 by {
      assert "1"[..0] == "";
    }
    assert Ascii.ParseInt("1") == Some(1);
    var lines := MarkedLines(["a", "b", "c"], 1);
    assert lines[0] == "-- a\n" && lines[1] == "-> b\n" && lines[2] == "-- c\n";
    assert lines == ["-- a\n", "-> b\n", "-- c\n"];
    var l := ["-- a\n", "-> b\n", "-- c\n"];
    assert l[1..][1..] == ["-- c\n"] && l[1..][1..][1..] == [];
    assert Text.Concat(["-- c\n"]) == "-- c\n";
    assert Text.Concat(l[1..]) == "-> b\n" + "-- c\n";
    assert Text.Concat(l) == "-- a\n" + "-> b\n" + "-- c\n";
    assert "-- a\n" + "-> b\n" + "-- c\n" == "-- a\n-> b\n-- c\n";
    assert MemberBlock(["a", "b", "c"], "1") == Success(Text.Concat(lines));
  }

  /** Example: members "a,b,c" without an index are indented, unmarked. */
  lemma IndentedExample()
    ensures MemberBlock(["a", "b", "c"], "") == Success("  a\n  b\n  c")
  {
    var lines := IndentedLines(["a", "b", "c"]);
    assert lines[0] == "  a" && lines[1] == "  b" && lines[2] == "  c";
    assert lines == ["  a", "  b", "  c"];
    assert lines[1..][1..] == ["  c"];
    assert Text.Join(lines[1..], "\n") == "  b" + "\n" + "  c";
    assert Text.Join(lines, "\n") == "  a" + "\n" + "  b" + "\n" + "  c";
    assert "  a" + "\n" + "  b" + "\n" + "  c" == "  a\n  b\n  c";
  }

  /** A run of `main` without any flag still counts the unguarded status and
      uuid setters: the report is the plural header alone. */
  lemma NoArgumentsReport(server: string)
    ensures Render(FromArguments(server, Arguments(None, None, None, None, None)))
      == Success(Header(server, 2))
    ensures Header(server, 2)[|Stem(server)|..] == "s:\n\n"
  {
  }
}
