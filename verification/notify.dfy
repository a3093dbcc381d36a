/** Notification actions and the dispatch loop of `main`.

    The SMTP transport (connect, SSL, login, send) is a foreign library call;
    here it is the parameter `transport`, which decides whether delivering a
    given message to a given configuration succeeds or raises. */
module Notify {
  import opened Wrappers
  import Text
  import opened GaleraStatus
  import opened Report

  /** The SMTP settings an `SMTPAction` is constructed with. */
  datatype SmtpConfig = SmtpConfig(
    server: string,
    port: int,
    useSsl: bool,
    useAuth: bool,
    user: string,
    password: string,
    sender: string,
    recipients: seq<string>,
    subject: string)

  /** The mail an action hands to the transport (the `Date` header left out). */
  datatype Message = Message(from: string, to: string, subject: string, body: string)

  /** Whether a call returned normally or raised, with the exception's text. */
  datatype Outcome = Returned | Raised(reason: string)

  /** What one `notify` call did. */
  datatype Delivery =
    | Skipped
    | RenderFailed(error: RenderError)
    | Transmitted(message: Message, outcome: Outcome)

  /** The notification actions; the source defines one kind. */
  datatype Action = SmtpAction(config: SmtpConfig)

  /** Whether the `notify` call ended in an exception. */
  predicate Failed(d: Delivery)
  {
    d.RenderFailed? || (d.Transmitted? && d.outcome.Raised?)
  }

  /** `SMTPAction.notify`: nothing is sent when the counter is not positive;
      otherwise the body is the rendered report (whose failure propagates as
      an exception) and the `To` header lists the recipients separated by
      ", ". */
  function Notify(a: Action, st: Status, transport: (SmtpConfig, Message) -> Outcome): (d: Delivery)
    ensures d.Skipped? <==> st.count <= 0
    ensures d.RenderFailed? <==> st.count > 0 && Render(st).Failure?
    ensures d.Transmitted? ==> Render(st) == Success(d.message.body)
    ensures d.Transmitted? ==> d.message.to == Text.Join(a.config.recipients, ", ")
    ensures d.Transmitted? ==> d.message.from == a.config.sender && d.message.subject == a.config.subject
    ensures d.Transmitted? ==> d.outcome == transport(a.config, d.message)
  {
    if st.count <= 0 then Skipped
    else
      match Render(st)
      case Failure(e) => RenderFailed(e)
      case Success(body) =>
        var cfg := a.config;
        var msg := Message(cfg.sender, Text.Join(cfg.recipients, ", "), cfg.subject, body);
        Transmitted(msg, transport(cfg, msg))
  }

  /** The return code of a run of deliveries, as the loop accumulates it:
      set to 1 by any failure and never reset. It is 0 exactly when no
      delivery failed. */
  function ReturnCode(ds: seq<Delivery>): (code: int)
    ensures code == 0 || code == 1
    ensures code == 0 <==> forall i :: 0 <= i < |ds| ==> !Failed(ds[i])
  {
    if |ds| == 0 then 0
    else if Failed(ds[|ds| - 1]) then 1
    else ReturnCode(ds[..|ds| - 1])
  }

  lemma ReturnCodeSnoc(ds: seq<Delivery>, d: Delivery)
    ensures ReturnCode(ds + [d]) == if Failed(d) then 1 else ReturnCode(ds)
  {
  }

  /** The loop of `main`: every action is notified, in order, whatever the
      earlier ones did; the exception of each is swallowed and only turns the
      return code to 1. `notify` is the call `action.notify(message_obj)`. */
  method Dispatch(actions: seq<Action>, notify: Action -> Delivery)
    returns (code: int, log: seq<Delivery>)
    ensures |log| == |actions|
    ensures forall i :: 0 <= i < |actions| ==> log[i] == notify(actions[i])
    ensures code == ReturnCode(log)
    ensures code == 0 <==> forall i :: 0 <= i < |log| ==> !Failed(log[i])
  {
    code := 0;
    log := [];
    var i := 0;
    while i < |actions|
      invariant 0 <= i <= |actions|
      invariant |log| == i
      invariant forall j :: 0 <= j < i ==> log[j] == notify(actions[j])
      invariant code == ReturnCode(log)
    {
      var d := notify(actions[i]);
      if Failed(d) {
        code := 1;
      }
      ReturnCodeSnoc(log, d);
      log := log + [d];
      i := i + 1;
    }
  }

  /** How a run of `main` ends: with an uncaught exception from rendering the
      report for the debug print, or by exiting with a return code. */
  datatype RunResult =
    | Crashed(error: RenderError)
    | Exited(debugOutput: Option<string>, log: seq<Delivery>, code: int)

  /** The actions `main` configures: one SMTP action when a server is set. */
  function ConfiguredActions(config: SmtpConfig): (actions: seq<Action>)
    ensures |actions| <= 1
    ensures |actions| == 1 <==> config.server != ""
    ensures forall i :: 0 <= i < |actions| ==> actions[i].config == config
  {
    if config.server != "" then [SmtpAction(config)] else []
  }

  /** `main` after argument parsing: build the record, print it when
      debugging (rendering failure here is not caught), then dispatch. */
  method Run(server: string, args: Arguments, debug: bool, config: SmtpConfig,
              transport: (SmtpConfig, Message) -> Outcome)
    returns (r: RunResult)
    ensures r.Crashed? <==> debug && Render(FromArguments(server, args)).Failure?
    ensures r.Exited? ==> (r.debugOutput.Some? <==> debug)
    ensures r.Exited? && debug ==> Render(FromArguments(server, args)) == Success(r.debugOutput.value)
    ensures r.Exited? ==> |r.log| == |ConfiguredActions(config)|
    ensures r.Exited? ==> forall i :: 0 <= i < |r.log| ==>
      r.log[i] == Notify(ConfiguredActions(config)[i], FromArguments(server, args), transport)
    ensures r.Exited? ==> forall i :: 0 <= i < |r.log| ==> !r.log[i].Skipped?
    ensures r.Exited? ==> r.code == ReturnCode(r.log)
  {
    var st := FromArguments(server, args);
    var output: Option<string> := None;
    if debug {
      match Render(st)
      case Failure(e) =>
        return Crashed(e);
      case Success(text) =>
        output := Some(text);
    }
    var actions := ConfiguredActions(config);
    var code, log := Dispatch(actions, a => Notify(a, st, transport));
    assert st.count > 0;
    forall i | 0 <= i < |log|
      ensures !log[i].Skipped?
    {
      assert log[i] == Notify(actions[i], st, transport);
    }
    r := Exited(output, log, code);
  }
}
