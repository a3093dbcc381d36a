# galeranotify — status record, report and dispatch

A Dafny model of the core of `galeranotify.py`, the notification command the
Galera replication plugin runs whenever the local node's view of cluster
membership changes. The model covers:

- the status record `GaleraStatus`: five setters for the optional fields
  (status, uuid, primary, members, index), each of which bumps a presence
  counter, with `primary` normalised by `capitalize` and `members` split on
  `,` (module `GaleraStatus`, file `status.dfy`);
- the report `__str__` renders: a header that says "change" or "changes"
  depending on the counter, then one section per field holding a truthy
  value, in the fixed order status, uuid, primary, members, index; the
  member list marks the entry at `int(index)` with `-> ` and the others with
  `-- `, or indents every entry by two spaces when no index is set (module
  `Report`, file `report.dfy`);
- `SMTPAction.notify` (skip when the counter is not positive; body equals the
  report; `To` is the recipients joined by `", "`) and the action loop of
  `main`, which tries every action in order, swallows each exception and
  returns 1 iff any action raised (module `Notify`, file `notify.dfy`);
- the ASCII pieces of Python string semantics the record relies on
  (`str.capitalize`, `int(str)`, `str.split`, `str.join`) in `ascii.dfy` and
  `text.dfy`.

Python's `None` is `Option.None`; an exception is a `Failure`/`Raised`
value. The record is an immutable datatype and each setter is a pure
function returning the updated record. The SMTP transport is a function
parameter that decides, per configuration and message, whether delivery
returns or raises.

The model follows the code as written, including these behaviours:

- `set_status` and `set_uuid` do not guard on `None`: they store it and
  still count it. As `main` always calls both, a run of `main` always has a
  counter of at least 2, so the header always reads "changes" and `notify`
  never skips (`Report.NoArgumentsReport`, `Notify.Run`).
- An index that is not an integer, together with a member list, makes
  `int(index)` raise `ValueError`; it does not degrade to an unmarked list.
  Inside `notify` that exception is caught by `main`'s loop (return code 1);
  in debug mode the `print(str(...))` is outside the `try`, so the run ends
  with an uncaught exception (`Notify.Run`, result `Crashed`).
- The debug flag prints the report and then carries on to dispatch; it does
  not stop the run.
- A setter given `""` still counts, but the field renders as absent, since
  rendering tests truthiness. `"".split(',')` is `[""]`, so members set to
  `""` render a list with one empty entry.

## Model

| member | source | states |
|---|---|---|
| Ascii.Capitalize | galeranotify.py:163 | same length; first character not lower-case (upper-case if it was a letter) and equal up to case; every later character not upper-case and equal up to case |
| Ascii.CapitalizeIdempotent | galeranotify.py:163 | normalising the stored primary a second time changes nothing |
| Ascii.CapitalizeIgnoresCase | galeranotify.py:163 | two values that differ only in letter case normalise to the same primary |
| Ascii.CapitalizeYes | galeranotify.py:163 | "yes", "YES" and "Yes" all normalise to "Yes" |
| Ascii.ParseInt | galeranotify.py:206 | `int(index)` succeeds exactly on an optional sign followed by digits; unsigned digits give a non-negative value |
| Ascii.ParseShowInt | galeranotify.py:206 | parsing the decimal text of any integer gives that integer back |
| Ascii.ParseLeadingZero | galeranotify.py:206 | a leading zero before digits does not change the parsed value |
| Ascii.ParsePlus | galeranotify.py:206 | a "+" before digits parses to the value of the digits |
| Ascii.ParseMinus | galeranotify.py:206 | a "-" before digits parses to the negated value of the digits |
| Text.Split | galeranotify.py:171 | the split of the members argument has one piece more than the argument has commas, and no piece contains a comma |
| Text.SplitEmpty | galeranotify.py:171 | splitting the empty string gives one empty piece |
| Text.JoinSplit | galeranotify.py:171 | joining the pieces with "," gives back the argument |
| Text.SplitJoin | galeranotify.py:171 | splitting a ","-join of comma-free pieces gives back the pieces |
| GaleraStatus.Init | galeranotify.py:138-145 | a fresh record keeps the server, has counter 0 and no field that would render |
| GaleraStatus.SetStatus | galeranotify.py:147-149 | stores the argument, `None` included; counter up by exactly 1; every other field unchanged |
| GaleraStatus.SetUuid | galeranotify.py:154-156 | stores the argument, `None` included; counter up by exactly 1; every other field unchanged |
| GaleraStatus.SetPrimary | galeranotify.py:161-164 | on `None` the record is unchanged; otherwise stores the capitalized value, counter up by 1, other fields unchanged, and the section shows iff the value is non-empty |
| GaleraStatus.SetMembers | galeranotify.py:169-172 | on `None` the record is unchanged; otherwise the stored list has commas+1 entries, joins back to the argument, counter up by 1, other fields unchanged, and the section always shows |
| GaleraStatus.SetIndex | galeranotify.py:177-180 | on `None` the record is unchanged; otherwise stores the text unvalidated, counter up by 1, other fields unchanged |
| GaleraStatus.SettersCommute | galeranotify.py:147-180 | setters of two different fields commute, so the setter order does not matter |
| GaleraStatus.FromArguments | galeranotify.py:70-75 | the record `main` builds counts 2 plus one per given primary, members and index flag; each section shows iff its flag was given a non-empty value (members: given at all) |
| Report.Header | galeranotify.py:189-190 | the header names the server and ends in "changes:" followed by a blank line iff the counter is positive, "change:" otherwise |
| Report.MarkedLines | galeranotify.py:204-211 | one line per member in order, each ending in a newline; the line at position `int(index)` starts with "-> " and all others with "-- "; a "-> " line exists iff the position is in range |
| Report.MemberBlock | galeranotify.py:201-215 | the member block fails exactly when an index is set and is not an integer |
| Report.MarkedBlockLines | galeranotify.py:204-211 | with a numeric index, the block read back line by line is exactly each member behind its marker, in order, and nothing after the last newline |
| Report.IndentedBlockLines | galeranotify.py:212-215 | without an index, the block read back line by line is exactly the indented lines, one per member in order |
| Report.MarkedExample | galeranotify.py:204-211 | members a,b,c with index 1 mark b with "-> " and a, c with "-- " |
| Report.IndentedExample | galeranotify.py:212-213 | members a,b,c without index are indented by two spaces, unmarked |
| Report.SectionFor | galeranotify.py:192-218 | each field contributes one section carrying its stored value iff it is truthy; only the members section can fail, and only on a non-integer index |
| Report.CollectOrder | galeranotify.py:192-218 | sections appear in the order of the fields they come from |
| Report.CollectPresence | galeranotify.py:192-218 | a section appears for exactly the present fields |
| Report.Sections | galeranotify.py:192-218 | the report's sections are exactly the present fields, in the order status, uuid, primary, members, index, each carrying the stored value; failure iff members are set and the index is set but not an integer |
| Report.Render | galeranotify.py:188-220 | the report is the header followed by the texts of exactly the sections `Sections` lists, in that order; it is the header alone when no field is present; rendering fails iff members are set and the index is set but not an integer |
| Report.NoArgumentsReport | galeranotify.py:147-156 | with no flag given, `main`'s record still renders the plural header, and nothing else |
| Notify.Notify | galeranotify.py:120-127 | skips iff the counter is not positive; otherwise a render failure raises, or the message sent has the report as body, the recipients joined by ", " as `To`, and the configured sender and subject |
| Notify.ReturnCode | galeranotify.py:85-92 | the accumulated return code is 0 or 1, and 0 iff no action raised; no actions give 0 |
| Notify.Dispatch | galeranotify.py:85-94 | every action is notified, in order, whatever earlier ones did; the return code is 0 iff none raised |
| Notify.ConfiguredActions | galeranotify.py:80-83 | one SMTP action with the configuration iff a server is configured, none otherwise |
| Notify.Run | galeranotify.py:70-94 | crashes iff debugging and the report fails to render; otherwise prints the report iff debugging, notifies every configured action with the record built from the flags, never skipping, and returns 1 if some action raised, 0 otherwise |

## Left out

- Argument parsing with `argparse` (galeranotify.py:54-68): the five flags are `Option<string>` values and the debug flag a `bool`.
- `socket.gethostname` and the module-level configuration constants (galeranotify.py:25-46): the server name and the SMTP configuration are parameters.
- SMTP transport (galeranotify.py:117, 130-134): connecting, SSL, login and `send_message` are a function parameter returning success or an exception.
- The `Date` header (galeranotify.py:128): it reads the wall clock.
- `print` and `sys.exit` (galeranotify.py:78, 91, 94): `Notify.Run` returns the debug text and the computed return code instead; the text of the "Unable to send notification" line is not modelled. `Crashed` stands for Python's own exit on an uncaught exception.
- The getters of `GaleraStatus` (galeranotify.py:151-186): they return stored fields, which the datatype exposes directly.
- `NotificationAction` (galeranotify.py:97-100): an abstract base class; the datatype `Notify.Action` has the one variant the source defines.
- Ascii.ParseInt: accepts only an optional ASCII sign followed by ASCII digits; Python's `int` also strips surrounding whitespace, allows `_` between digits and accepts non-ASCII digits. CPython (3.11 and later, and security releases of 3.7–3.10) also raises `ValueError` on a decimal string of more than 4300 digits (`sys.set_int_max_str_digits`); the model parses digit strings of any length, so `Ascii.ParseShowInt` and `Ascii.ParseLeadingZero` hold of the model but not of such interpreters beyond that length.
- Ascii.Capitalize: maps ASCII letters only; Python's `capitalize` also title-cases and lower-cases non-ASCII characters.
- Report.MarkedBlockLines: stated for members that contain no newline, since a member with a newline spans several report lines.
- Report.IndentedBlockLines: stated for a non-empty member list whose entries contain no newline, for the same reason.
