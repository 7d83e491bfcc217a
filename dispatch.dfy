/** The command dispatcher of the Netvisor plugin: `get` (one command) and
    `run_commands` (a batch), as functions of the transport's replies that
    give the outcome of a call and the commands it sent. The class
    `Netvisor.Cliconf` runs the same logic step by step against its log. */
module Dispatch {
  import opened CliconfTypes

  const CommandRequired := "must provide value of command to execute"
  const CommandsRequired := "'commands' value is required"

  function OutputNotSupportedForGet(output: string): string
  {
    "'output' value " + output + " is not supported for get"
  }

  function OutputNotSupportedForRun(output: string): string
  {
    "'output' value " + output + " is not supported for run_commands"
  }

  /** An exception raised by `send_command` propagates; otherwise its text is
      the result. */
  function FromReply(r: Reply): Outcome<string>
  {
    match r
    case Output(t) => Ok(t)
    case Failed(f) => Err(ConnectionFailure(f))
  }

  /** `get`: both arguments are checked before anything is sent, and no
      value of `output` is accepted at all. */
  function Get(reply: Command -> Reply, command: Option<string>, prompt: Option<string>,
               answer: Option<string>, sendonly: bool, output: Option<string>, checkAll: bool)
    : (r: Run<string>)
    ensures r.sent == [] <==> (command.None? || command.value == "" || IsTruthy(output))
    ensures r.sent == [] <==> r.outcome.Err? && r.outcome.error.ValueError?
    ensures r.sent != [] ==>
              r.sent == [Command(command.value, prompt, answer, sendonly, checkAll, None)]
              && r.outcome == FromReply(reply(r.sent[0]))
  {
    if command.None? || command.value == "" then
      Run(Err(ValueError(CommandRequired)), [])
    else if IsTruthy(output) then
      Run(Err(ValueError(OutputNotSupportedForGet(output.value))), [])
    else
      var c := Command(command.value, prompt, answer, sendonly, checkAll, None);
      Run(FromReply(reply(c)), [c])
  }

  /** The keyword arguments `run_commands` forwards for an entry: the
      normalized mapping with `output` popped. */
  function Forward(e: Entry): (r: Command)
    ensures r.output == None
    ensures r.(output := Normalize(e).output) == Normalize(e)
  {
    Normalize(e).(output := None)
  }

  /** The slot an entry fills in the response list when its command was sent:
      the output, or the failure's `err` (or text) in tolerant mode. */
  function ResponseOf(r: Reply): string
  {
    match r
    case Output(t) => t
    case Failed(f) => ErrText(f)
  }

  /** An entry whose `output` does not make `run_commands` raise. */
  predicate Accepted(e: Entry)
  {
    !IsTruthy(Normalize(e).output)
  }

  /** An entry after which `run_commands` goes on to the next one. */
  predicate Passes(reply: Command -> Reply, e: Entry, checkRc: bool)
  {
    Accepted(e) && !(checkRc && reply(Forward(e)).Failed?)
  }

  /** Reference definitions: what a complete pass sends and returns. */
  function Forwarded(entries: seq<Entry>): seq<Command>
  {
    seq(|entries|, i requires 0 <= i < |entries| => Forward(entries[i]))
  }

  function Responses(reply: Command -> Reply, entries: seq<Entry>): seq<string>
  {
    seq(|entries|, i requires 0 <= i < |entries| => ResponseOf(reply(Forward(entries[i]))))
  }

  /** Put the responses and commands of earlier entries in front of a run of
      the later ones; an exception of the later run discards the responses. */
  function Prepend(outs: seq<string>, cmds: seq<Command>, rest: Run<seq<string>>): Run<seq<string>>
  {
    Run(if rest.outcome.Ok? then Ok(outs + rest.outcome.value) else rest.outcome, cmds + rest.sent)
  }

  /** The loop of `run_commands`, entry by entry. */
  function RunEntries(reply: Command -> Reply, entries: seq<Entry>, checkRc: bool): (r: Run<seq<string>>)
    ensures |r.sent| <= |entries|
    ensures r.outcome.Ok? ==> |r.outcome.value| == |r.sent| == |entries|
    decreases |entries|
  {
    if entries == [] then
      Run(Ok([]), [])
    else
      var cmd := Normalize(entries[0]);
      if IsTruthy(cmd.output) then
        Run(Err(ValueError(OutputNotSupportedForRun(cmd.output.value))), [])
      else
        var forwarded := cmd.(output := None);
        var r := reply(forwarded);
        if r.Failed? && checkRc then
          Run(Err(ConnectionFailure(r.failure)), [forwarded])
        else
          Prepend([ResponseOf(r)], [forwarded], RunEntries(reply, entries[1..], checkRc))
  }

  /** `run_commands`: `None` is refused before anything is sent. */
  function RunCommands(reply: Command -> Reply, commands: Option<Batch>, checkRc: bool)
    : (r: Run<seq<string>>)
    ensures commands.None? ==> r.outcome == Err(ValueError(CommandsRequired)) && r.sent == []
  {
    if commands.None? then Run(Err(ValueError(CommandsRequired)), [])
    else RunEntries(reply, ToList(commands), checkRc)
  }

  /** One turn of the loop of `run_commands`, on the entries from `i` on. */
  lemma RunEntriesFrom(reply: Command -> Reply, entries: seq<Entry>, checkRc: bool, i: nat)
    requires i < |entries|
    ensures var cmd := Normalize(entries[i]);
      var forwarded := cmd.(output := None);
      RunEntries(reply, entries[i..], checkRc)
        == if IsTruthy(cmd.output) then Run(Err(ValueError(OutputNotSupportedForRun(cmd.output.value))), [])
           else if reply(forwarded).Failed? && checkRc then Run(Err(ConnectionFailure(reply(forwarded).failure)), [forwarded])
           else Prepend([ResponseOf(reply(forwarded))], [forwarded], RunEntries(reply, entries[i + 1..], checkRc))
  {
    assert entries[i..][0] == entries[i] && entries[i..][1..] == entries[i + 1..];
  }

  lemma PrependNothing(rest: Run<seq<string>>)
    ensures Prepend([], [], rest) == rest
  {
    if rest.outcome.Ok? {
      assert [] + rest.outcome.value == rest.outcome.value;
    }
    assert [] + rest.sent == rest.sent;
  }

  lemma PrependAssoc(outs: seq<string>, cmds: seq<Command>, outs': seq<string>, cmds': seq<Command>,
                     rest: Run<seq<string>>)
    ensures Prepend(outs, cmds, Prepend(outs', cmds', rest)) == Prepend(outs + outs', cmds + cmds', rest)
  {
    if rest.outcome.Ok? {
      assert outs + (outs' + rest.outcome.value) == (outs + outs') + rest.outcome.value;
    }
    assert cmds + (cmds' + rest.sent) == (cmds + cmds') + rest.sent;
  }

  /** The entries before the first one that stops the loop are all sent, in
      order, and each fills its own response slot. */
  lemma {:induction false} RunStopsAt(reply: Command -> Reply, entries: seq<Entry>, checkRc: bool, k: nat)
    requires k <= |entries|
    requires forall j :: 0 <= j < k ==> Passes(reply, entries[j], checkRc)
    ensures RunEntries(reply, entries, checkRc)
         == Prepend(Responses(reply, entries[..k]), Forwarded(entries[..k]), RunEntries(reply, entries[k..], checkRc))
  {
    if k == 0 {
      assert entries[k..] == entries;
      assert Responses(reply, entries[..k]) == [];
      assert Forwarded(entries[..k]) == [];
      PrependNothing(RunEntries(reply, entries, checkRc));
    } else {
      var tail := entries[1..];
      RunStopsAt(reply, tail, checkRc, k - 1);
      assert tail[k - 1..] == entries[k..];
      var out, cmd := ResponseOf(reply(Forward(entries[0]))), Forward(entries[0]);
      assert RunEntries(reply, entries, checkRc) == Prepend([out], [cmd], RunEntries(reply, tail, checkRc));
      PrependAssoc([out], [cmd], Responses(reply, tail[..k - 1]), Forwarded(tail[..k - 1]),
                   RunEntries(reply, entries[k..], checkRc));
      assert Responses(reply, entries[..k]) == [out] + Responses(reply, tail[..k - 1]);
      assert Forwarded(entries[..k]) == [cmd] + Forwarded(tail[..k - 1]);
    }
  }

  /** With `check_rc` false and no entry carrying an `output`, there is one
      response per entry in input order, every entry is sent, and a failed
      entry's slot holds the failure's `err` or text. */
  lemma {:induction false} RunTolerant(reply: Command -> Reply, entries: seq<Entry>)
    requires forall j :: 0 <= j < |entries| ==> Accepted(entries[j])
    ensures var r := RunEntries(reply, entries, false);
      r.outcome.Ok? && |r.outcome.value| == |entries| && r.sent == Forwarded(entries)
      && forall i :: 0 <= i < |entries| ==>
           r.outcome.value[i] == ResponseOf(reply(Forward(entries[i])))
  {
    RunStopsAt(reply, entries, false, |entries|);
    assert entries[..|entries|] == entries;
    assert entries[|entries|..] == [];
  }

  /** With `check_rc` true, the first connection failure propagates
      unchanged; the failing command was sent and no later one. */
  lemma {:induction false} RunAbortsOnFailure(reply: Command -> Reply, entries: seq<Entry>, k: nat)
    requires k < |entries|
    requires forall j :: 0 <= j < k ==> Passes(reply, entries[j], true)
    requires Accepted(entries[k]) && reply(Forward(entries[k])).Failed?
    ensures RunEntries(reply, entries, true)
         == Run(Err(ConnectionFailure(reply(Forward(entries[k])).failure)), Forwarded(entries[..k + 1]))
  {
    RunStopsAt(reply, entries, true, k);
    assert entries[k..][0] == entries[k];
    assert Forwarded(entries[..k + 1]) == Forwarded(entries[..k]) + [Forward(entries[k])];
  }

  /** An entry with a non-empty `output` raises at that point: the entries
      before it have been sent, it and the later ones have not. */
  lemma {:induction false} RunRejectsOutput(reply: Command -> Reply, entries: seq<Entry>, checkRc: bool, k: nat)
    requires k < |entries|
    requires forall j :: 0 <= j < k ==> Passes(reply, entries[j], checkRc)
    requires !Accepted(entries[k])
    ensures RunEntries(reply, entries, checkRc)
         == Run(Err(ValueError(OutputNotSupportedForRun(Normalize(entries[k]).output.value))),
                Forwarded(entries[..k]))
  {
    RunStopsAt(reply, entries, checkRc, k);
    assert entries[k..][0] == entries[k];
    assert Forwarded(entries[..k]) + [] == Forwarded(entries[..k]);
  }

  /** Whatever the policy, a returned response list has one slot per entry,
      in order, and then every entry was sent; with `check_rc` no command
      failed. */
  lemma {:induction false} RunOkIsComplete(reply: Command -> Reply, entries: seq<Entry>, checkRc: bool)
    requires RunEntries(reply, entries, checkRc).outcome.Ok?
    ensures RunEntries(reply, entries, checkRc).outcome.value == Responses(reply, entries)
    ensures RunEntries(reply, entries, checkRc).sent == Forwarded(entries)
    ensures forall j :: 0 <= j < |entries| ==> Passes(reply, entries[j], checkRc)
  {
    if entries != [] {
      var tail := entries[1..];
      RunOkIsComplete(reply, tail, checkRc);
      assert Responses(reply, entries) == [ResponseOf(reply(Forward(entries[0])))] + Responses(reply, tail);
      assert Forwarded(entries) == [Forward(entries[0])] + Forwarded(tail);
      forall j | 0 <= j < |entries| ensures Passes(reply, entries[j], checkRc) {
        if j > 0 { assert entries[j] == tail[j - 1]; }
      }
    }
  }

  /** Whatever happens, what was sent is a prefix of the commands of a
      complete pass: nothing is sent out of order or twice. */
  lemma {:induction false} RunSentIsPrefix(reply: Command -> Reply, entries: seq<Entry>, checkRc: bool)
    ensures var s := RunEntries(reply, entries, checkRc).sent;
      |s| <= |entries| && s == Forwarded(entries[..|s|])
  {
    if entries != [] {
      var tail := entries[1..];
      RunSentIsPrefix(reply, tail, checkRc);
      var s := RunEntries(reply, entries, checkRc).sent;
      var t := RunEntries(reply, tail, checkRc).sent;
      if |s| > 1 {
        assert s == [Forward(entries[0])] + t;
        assert entries[..|s|][1..] == tail[..|t|];
        assert Forwarded(entries[..|s|]) == [Forward(entries[0])] + Forwarded(tail[..|t|]);
      } else if |s| == 1 {
        assert s == [Forward(entries[0])];
      }
    }
  }

  /** In tolerant mode a connection failure never escapes `run_commands`. */
  lemma {:induction false} TolerantNeverRaisesFailure(reply: Command -> Reply, entries: seq<Entry>)
    ensures var o := RunEntries(reply, entries, false).outcome;
      o.Ok? || o.error.ValueError?
  {
    if entries != [] {
      TolerantNeverRaisesFailure(reply, entries[1..]);
    }
  }

  /** Three commands of which the second fails: with `check_rc` the failure
      propagates after two sends; without it the failure's text is the
      second of three responses. */
  lemma {:induction false} SecondOfThreeFails(reply: Command -> Reply, a: string, b: string, c: string)
    requires reply(Forward(Text(a))).Output? && reply(Forward(Text(b))).Failed?
    ensures var f := reply(Forward(Text(b))).failure;
      RunEntries(reply, [Text(a), Text(b), Text(c)], true)
        == Run(Err(ConnectionFailure(f)), [Forward(Text(a)), Forward(Text(b))])
    ensures var r := RunEntries(reply, [Text(a), Text(b), Text(c)], false);
      r.outcome.Ok? && |r.outcome.value| == 3
      && r.outcome.value[1] == ErrText(reply(Forward(Text(b))).failure)
      && r.outcome.value[2] == ResponseOf(reply(Forward(Text(c))))
  {
    var entries := [Text(a), Text(b), Text(c)];
    RunAbortsOnFailure(reply, entries, 1);
    assert entries[..2] == [Text(a), Text(b)];
    RunTolerant(reply, entries);
  }
}
