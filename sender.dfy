/**
 * The SMPPSender object and its `main`. The object keeps the `bound` flag and
 * the two settings `loadProperties` computes; `main` parses the arguments,
 * splits the destinations, builds the sender from the configuration file the
 * `-file` option names, binds, and unbinds if the bind succeeded.
 */
module SmppSender {
  import opened Wrappers
  import opened JavaLang
  import opened Args
  import opened Tokenizer
  import opened Settings
  import opened Binding

  class Sender {
    /** The library's `Data.RECEIVE_BLOCKING`. */
    const blocking: int
    var bound: bool
    var bindOption: string
    var receiveTimeout: int
    /** Whether `loadProperties` printed that the `bind-mode` value is wrong. */
    var bindModeWarned: bool

    /**
     * `new SMPPSender()`: the field initialisers, then `loadProperties` on the
     * file's values. `bindModeWarned` records the message that `bind-mode` is wrong.
     */
    constructor (props: Properties, blocking: int)
      ensures this.blocking == blocking
      ensures bindModeWarned == !BindModeRecognised(props.bindMode.GetOr(DEFAULT_BIND_OPTION))
      ensures !bound
      ensures bindOption == BindOptionSetting(props.bindMode, DEFAULT_BIND_OPTION)
      ensures receiveTimeout == ReceiveTimeoutSetting(props.receiveTimeout, blocking, blocking)
    {
      this.blocking := blocking;
      bound := false;
      bindOption := DEFAULT_BIND_OPTION;
      receiveTimeout := blocking;
      bindModeWarned := false;
      new;
      bindModeWarned := LoadProperties(props);
    }

    /**
     * The `bind-mode` and `receive-timeout` part of `loadProperties`; `warned`
     * says whether it printed that the `bind-mode` value is wrong.
     */
    method LoadProperties(props: Properties) returns (warned: bool)
      modifies this`bindOption, this`receiveTimeout
      ensures warned == !BindModeRecognised(props.bindMode.GetOr(old(bindOption)))
      ensures bound == old(bound)
      ensures bindOption == BindOptionSetting(props.bindMode, old(bindOption))
      ensures receiveTimeout == ReceiveTimeoutSetting(props.receiveTimeout, old(receiveTimeout), blocking)
    {
      var bindMode := props.bindMode.GetOr(bindOption);
      warned := false;
      if EqualsIgnoreCase(bindMode, "transmitter") {
        bindMode := "t";
      } else if EqualsIgnoreCase(bindMode, "receiver") {
        bindMode := "r";
      } else if EqualsIgnoreCase(bindMode, "transciever") {
        bindMode := "tr";
      } else if !EqualsIgnoreCase(bindMode, "t") && !EqualsIgnoreCase(bindMode, "r") && !EqualsIgnoreCase(bindMode, "tr") {
        warned := true;
        bindMode := "t";
      }
      bindOption := bindMode;

      var rcvTimeout: Int32;
      if receiveTimeout == blocking {
        rcvTimeout := -1;
      } else {
        rcvTimeout := JavaDiv(Wrap32(receiveTimeout), 1000);
      }
      rcvTimeout := props.receiveTimeout.GetOr(rcvTimeout);
      if rcvTimeout == -1 {
        receiveTimeout := blocking;
      } else {
        receiveTimeout := Wrap32(rcvTimeout * 1000);
      }
    }

    /** `bind()`: refused while bound, otherwise bound exactly when the response status is ESME_ROK. */
    method Bind(outcome: BindOutcome) returns (report: BindReport)
      modifies this`bound
      ensures bound == AfterBind(old(bound), outcome)
      ensures report == BindReportOf(old(bound), outcome)
      ensures old(bound) ==> report == AlreadyBound
    {
      if bound {
        return AlreadyBound;
      }
      match outcome
      case BindThrew =>
        report := BindFailed;
      case BindResponse(status) =>
        if status == ESME_ROK {
          bound := true;
          report := BindAccepted;
        } else {
          report := BindRejected(status);
        }
    }

    /** `unbind()`: refused while not bound, otherwise unbound exactly when the session's unbind returns. */
    method Unbind(outcome: UnbindOutcome) returns (report: UnbindReport)
      modifies this`bound
      ensures bound == AfterUnbind(old(bound), outcome)
      ensures report == UnbindReportOf(old(bound), outcome)
      ensures !old(bound) ==> report == NotBound
    {
      if !bound {
        return NotBound;
      }
      match outcome
      case UnbindThrew =>
        report := UnbindFailed;
      case UnbindReturned =>
        bound := false;
        report := Unbound;
    }
  }

  /** How a run of `main` ends. */
  datatype MainOutcome =
    | ArgumentError(error: ParseError)           // an exception escapes the argument loop
    | UsageExit                                  // usage printed, System.exit(0)
    | NotInitialised(destinations: seq<string>)  // the configuration file could not be read
    | Completed(destinations: seq<string>, bindModeWarned: bool, bindOption: string, receiveTimeout: int,
                bindReport: BindReport, unbindReport: Option<UnbindReport>, boundAtEnd: bool)

  /**
   * `main`, with the library's answers as inputs: `loadFile` gives the parsed
   * configuration of a file or None when reading it fails, `blocking` is
   * `Data.RECEIVE_BLOCKING`, and the two outcomes are what the session's bind and
   * unbind do.
   */
  method RunMain(args: seq<string>, parseByte: ByteParser, loadFile: string -> Option<Properties>,
                 blocking: int, bindOutcome: BindOutcome, unbindOutcome: UnbindOutcome)
    returns (r: MainOutcome)
    ensures Parse(args, parseByte).Failure? ==> r == ArgumentError(Parse(args, parseByte).error)
    ensures r.ArgumentError? <==> Parse(args, parseByte).Failure?
    ensures r.UsageExit? <==> Parse(args, parseByte).Success? && NeedsUsage(Parse(args, parseByte).value)
    ensures r.NotInitialised? || r.Completed? ==>
      var p := Parse(args, parseByte);
      p.Success? && !NeedsUsage(p.value) && r.destinations == Tokens(p.value.dest.value) &&
      (r.NotInitialised? <==> loadFile(p.value.propsFile).None?)
    ensures r.Completed? ==>
      var props := loadFile(Parse(args, parseByte).value.propsFile).value;
      && r.bindModeWarned == !BindModeRecognised(props.bindMode.GetOr(DEFAULT_BIND_OPTION))
      && r.bindOption == BindOptionSetting(props.bindMode, DEFAULT_BIND_OPTION)
      && r.receiveTimeout == ReceiveTimeoutSetting(props.receiveTimeout, blocking, blocking)
      && r.bindReport == BindReportOf(false, bindOutcome)
      && r.unbindReport ==
           (if bindOutcome == BindResponse(ESME_ROK) then Some(UnbindReportOf(true, unbindOutcome)) else None)
      && r.boundAtEnd == (bindOutcome == BindResponse(ESME_ROK) && unbindOutcome == UnbindThrew)
  {
    var parsed := ParseArgs(args, parseByte);
    if parsed.Failure? {
      return ArgumentError(parsed.error);
    }
    var p := parsed.value;
    if p.dest.None? || p.message.None? {
      return UsageExit;
    }
    var destinations := SplitDestinations(p.dest.value);
    var props := loadFile(p.propsFile);
    if props.None? {
      return NotInitialised(destinations);
    }
    var sender := new Sender(props.value, blocking);
    var bindReport := sender.Bind(bindOutcome);
    var unbindReport := None;
    if sender.bound {
      var u := sender.Unbind(unbindOutcome);
      unbindReport := Some(u);
    }
    return Completed(destinations, sender.bindModeWarned, sender.bindOption, sender.receiveTimeout, bindReport, unbindReport, sender.bound);
  }
}
