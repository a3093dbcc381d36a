/** The cluster-status record `GaleraStatus` and its five setters.

    Python's `None` argument is `Option.None`. `set_status` and `set_uuid` store
    their argument unguarded (so the stored value may itself be `None`) and
    always bump the counter; the other three setters do nothing on `None`. The
    member list starts as the empty string; since `split` never returns an
    empty list, the empty sequence stands for that unset value. */
module GaleraStatus {
  import opened Wrappers
  import Ascii
  import Text

  /** The five optional fields, in the order the report lists them. */
  datatype Field = StatusField | UuidField | PrimaryField | MembersField | IndexField

  datatype Status = Status(
    server: string,
    status: Option<string>,
    uuid: Option<string>,
    primary: string,
    members: seq<string>,
    index: string,
    count: int)

  /** Python truthiness of a value that is either a string or `None`. */
  predicate Truthy(o: Option<string>) {
    o.Some? && o.value != ""
  }

  /** Whether the report shows a section for `f`: the truthiness test the
      renderer applies to the stored value. */
  predicate Present(st: Status, f: Field) {
    match f
    case StatusField => Truthy(st.status)
    case UuidField => Truthy(st.uuid)
    case PrimaryField => st.primary != ""
    case MembersField => |st.members| > 0
    case IndexField => st.index != ""
  }

  /** `a` and `b` agree on the server and on every optional field except `f`
      (the counter is not compared). */
  predicate SameExcept(a: Status, b: Status, f: Field) {
    && a.server == b.server
    && (f != StatusField ==> a.status == b.status)
    && (f != UuidField ==> a.uuid == b.uuid)
    && (f != PrimaryField ==> a.primary == b.primary)
    && (f != MembersField ==> a.members == b.members)
    && (f != IndexField ==> a.index == b.index)
  }

  /** The freshly constructed record for host `server`. */
  function Init(server: string): (st: Status)
    ensures st.server == server && st.count == 0
    ensures forall f :: !Present(st, f)
  {
    Status(server, Some(""), Some(""), "", [], "", 0)
  }

  /** `set_status`: stores the argument, `None` included, and counts it. */
  function SetStatus(st: Status, v: Option<string>): (r: Status)
    ensures r.status == v
    ensures r.count == st.count + 1
    ensures SameExcept(st, r, StatusField)
  {
    st.(status := v, count := st.count + 1)
  }

  /** `set_uuid`: stores the argument, `None` included, and counts it. */
  function SetUuid(st: Status, v: Option<string>): (r: Status)
    ensures r.uuid == v
    ensures r.count == st.count + 1
    ensures SameExcept(st, r, UuidField)
  {
    st.(uuid := v, count := st.count + 1)
  }

  /** `set_primary`: ignores `None`; otherwise stores the capitalized value
      and counts it. */
  function SetPrimary(st: Status, v: Option<string>): (r: Status)
    ensures v.None? ==> r == st
    ensures v.Some? ==> r.count == st.count + 1 && SameExcept(st, r, PrimaryField)
    ensures v.Some? ==> r.primary == Ascii.Capitalize(v.value)
    ensures v.Some? ==> (Present(r, PrimaryField) <==> v.value != "")
  {
    if v.Some? then st.(primary := Ascii.Capitalize(v.value), count := st.count + 1) else st
  }

  /** `set_members`: ignores `None`; otherwise stores the comma-separated
      pieces and counts them. The stored list has one entry more than the
      argument has commas, and joining it with "," restores the argument. */
  function SetMembers(st: Status, v: Option<string>): (r: Status)
    ensures v.None? ==> r == st
    ensures v.Some? ==> r.count == st.count + 1 && SameExcept(st, r, MembersField)
    ensures v.Some? ==> |r.members| == Text.Occurrences(v.value, ',') + 1
    ensures v.Some? ==> Text.Join(r.members, ",") == v.value
    ensures v.Some? ==> Present(r, MembersField)
  {
    if v.Some? then
      Text.JoinSplit(v.value, ',');
      st.(members := Text.Split(v.value, ','), count := st.count + 1)
    else st
  }

  /** `set_index`: ignores `None`; otherwise stores the text unvalidated and
      counts it. */
  function SetIndex(st: Status, v: Option<string>): (r: Status)
    ensures v.None? ==> r == st
    ensures v.Some? ==> r.count == st.count + 1 && SameExcept(st, r, IndexField)
    ensures v.Some? ==> r.index == v.value
  {
    if v.Some? then st.(index := v.value, count := st.count + 1) else st
  }

  /** The setter for field `f`. */
  function Set(st: Status, f: Field, v: Option<string>): Status
  {
    match f
    case StatusField => SetStatus(st, v)
    case UuidField => SetUuid(st, v)
    case PrimaryField => SetPrimary(st, v)
    case MembersField => SetMembers(st, v)
    case IndexField => SetIndex(st, v)
  }

  /** The fields are independent: setters of two different fields commute. */
  lemma SettersCommute(st: Status, f: Field, g: Field, v: Option<string>, w: Option<string>)
    requires f != g
    ensures Set(Set(st, f, v), g, w) == Set(Set(st, g, w), f, v)
  {
  }

  /** The five optional command-line values, `None` when the flag is absent. */
  datatype Arguments = Arguments(
    uuid: Option<string>,
    index: Option<string>,
    status: Option<string>,
    primary: Option<string>,
    members: Option<string>)

  function Indicator(b: bool): nat { if b then 1 else 0 }

  /** The record `main` builds: the setters applied in the order uuid, index,
      status, primary, members. Status and uuid are always counted; the other
      three only when given. Each section shows exactly when its flag was
      given a non-empty value (members: given at all). */
  function FromArguments(server: string, args: Arguments): (st: Status)
    ensures st.server == server
    ensures st.count == 2 + Indicator(args.index.Some?) + Indicator(args.primary.Some?) + Indicator(args.members.Some?)
    ensures Present(st, StatusField) <==> Truthy(args.status)
    ensures Present(st, UuidField) <==> Truthy(args.uuid)
    ensures Present(st, PrimaryField) <==> Truthy(args.primary)
    ensures Present(st, MembersField) <==> args.members.Some?
    ensures Present(st, IndexField) <==> Truthy(args.index)
  {
    var s0 := Init(server);
    var s1 := SetUuid(s0, args.uuid);
    var s2 := SetIndex(s1, args.index);
    var s3 := SetStatus(s2, args.status);
    var s4 := SetPrimary(s3, args.primary);
    SetMembers(s4, args.members)
  }
}
