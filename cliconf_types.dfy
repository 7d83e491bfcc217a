/** Values shared by the Netvisor cliconf plugin: command entries as callers
    pass them, the keyword arguments forwarded to the transport, the
    transport's replies and the errors a call can end with. */
module CliconfTypes {

  datatype Option<+T> = None | Some(value: T)

  /** The keyword arguments of one `send_command` call. A key the caller's
      mapping leaves out is `None` (or `false` for the two flags). `output` is
      treated differently by the two batch operations: `run_commands` removes
      it before forwarding, `edit_config` forwards the line as given. What
      `send_command` does with it is outside this model. */
  datatype Command = Command(
    command: string,
    prompt: Option<string>,
    answer: Option<string>,
    sendonly: bool,
    checkAll: bool,
    output: Option<string>)

  /** One entry of a command list: a bare command string, or a mapping of
      keyword arguments. */
  datatype Entry = Text(text: string) | Mapping(fields: Command)

  /** What `to_list` accepts besides `None`: a list of entries, or a single
      entry that it wraps into a one-element list. */
  datatype Batch = Many(entries: seq<Entry>) | One(entry: Entry)

  /** A connection failure raised by the transport. It may carry an `err`
      attribute (the device's own error text); `text` is what `to_text` gives
      for the exception. */
  datatype Failure = Failure(err: Option<string>, text: string)

  /** What the transport gives back for one command. */
  datatype Reply = Output(text: string) | Failed(failure: Failure)

  /** The exceptions a call of the plugin can end with. */
  datatype Error = ValueError(message: string) | ConnectionFailure(failure: Failure)

  datatype Outcome<+T> = Ok(value: T) | Err(error: Error)

  /** The outcome of one call together with the commands it sent, in the
      order they were sent. */
  datatype Run<+T> = Run(outcome: Outcome<T>, sent: seq<Command>)

  /** `to_list`: `None` becomes the empty list, a single entry a singleton. */
  function ToList(commands: Option<Batch>): seq<Entry>
  {
    match commands
    case None => []
    case Some(Many(entries)) => entries
    case Some(One(entry)) => [entry]
  }

  /** A bare string entry becomes `{'command': entry}`; a mapping is kept. */
  function Normalize(e: Entry): (r: Command)
    ensures e.Mapping? ==> r == e.fields
    ensures e.Text? ==> r.command == e.text && !IsTruthy(r.output)
  {
    match e
    case Text(t) => Command(t, None, None, false, false, None)
    case Mapping(c) => c
  }

  /** Python truthiness of an optional string: present and non-empty. */
  predicate IsTruthy(s: Option<string>)
  {
    s.Some? && s.value != ""
  }

  /** `getattr(e, 'err', to_text(e))`: the failure's `err` if it has one,
      otherwise its text. */
  function ErrText(f: Failure): (r: string)
    ensures f.err.Some? ==> r == f.err.value
    ensures f.err.None? ==> r == f.text
  {
    match f.err
    case Some(err) => err
    case None => f.text
  }
}
