/** The `Cliconf` class of the Netvisor plugin. The transport it inherits is
    a reply oracle together with the log of the commands sent through it;
    each operation is proved to send and return what the functions of
    `Dispatch` and `ConfigEditor` say. */
module Netvisor {
  import opened CliconfTypes
  import Dispatch
  import ConfigEditor

  class Cliconf {
    /** The device's reply to each command. */
    const reply: Command -> Reply
    /** Every command sent through the transport so far, oldest first. */
    var sent: seq<Command>

    constructor (reply: Command -> Reply)
      ensures this.reply == reply && sent == []
    {
      this.reply := reply;
      sent := [];
    }

    /** `send_command`: one command goes out and its reply comes back. */
    method SendCommand(c: Command) returns (r: Reply)
      modifies this
      ensures sent == old(sent) + [c]
      ensures r == reply(c)
    {
      r := reply(c);
      sent := sent + [c];
    }

    method Get(command: Option<string> := None, prompt: Option<string> := None,
               answer: Option<string> := None, sendonly: bool := false,
               output: Option<string> := None, checkAll: bool := false)
      returns (o: Outcome<string>)
      modifies this
      ensures var r := Dispatch.Get(reply, command, prompt, answer, sendonly, output, checkAll);
        o == r.outcome && sent == old(sent) + r.sent
    {
      if command.None? || command.value == "" {
        return Err(ValueError(Dispatch.CommandRequired));
      }
      if IsTruthy(output) {
        return Err(ValueError(Dispatch.OutputNotSupportedForGet(output.value)));
      }
      var r := SendCommand(Command(command.value, prompt, answer, sendonly, checkAll, None));
      o := Dispatch.FromReply(r);
    }

    method RunCommands(commands: Option<Batch> := None, checkRc: bool := false)
      returns (o: Outcome<seq<string>>)
      modifies this
      ensures var r := Dispatch.RunCommands(reply, commands, checkRc);
        o == r.outcome && sent == old(sent) + r.sent
    {
      if commands.None? {
        return Err(ValueError(Dispatch.CommandsRequired));
      }
      var entries := ToList(commands);
      var responses: seq<string> := [];
      ghost var log: seq<Command> := [];
      var i := 0;
      assert entries[i..] == entries;
      Dispatch.PrependNothing(Dispatch.RunEntries(reply, entries, checkRc));
      while i < |entries|
        invariant 0 <= i <= |entries|
        invariant sent == old(sent) + log
        invariant Dispatch.RunEntries(reply, entries, checkRc)
               == Dispatch.Prepend(responses, log, Dispatch.RunEntries(reply, entries[i..], checkRc))
      {
        Dispatch.RunEntriesFrom(reply, entries, checkRc, i);
        var cmd := Normalize(entries[i]);
        if IsTruthy(cmd.output) {
          assert log + [] == log;
          return Err(ValueError(Dispatch.OutputNotSupportedForRun(cmd.output.value)));
        }
        var forwarded := cmd.(output := None);
        var r := SendCommand(forwarded);
        var out: string;
        if r.Failed? {
          if checkRc {
            return Err(ConnectionFailure(r.failure));
          }
          out := ErrText(r.failure);
        } else {
          out := r.text;
        }
        Dispatch.PrependAssoc(responses, log, [out], [forwarded], Dispatch.RunEntries(reply, entries[i + 1..], checkRc));
        responses := responses + [out];
        log := log + [forwarded];
        i := i + 1;
      }
      assert entries[i..] == [];
      assert responses + [] == responses && log + [] == log;
      o := Ok(responses);
    }

    method EditConfig(candidate: Option<Batch> := None, commit: bool := true,
                      replace: Option<string> := None, comment: Option<string> := None)
      returns (o: Outcome<ConfigEditor.ConfigResponse>)
      requires ConfigEditor.NonEmptyCommands(ConfigEditor.Lines(ToList(candidate)))
      modifies this
      ensures var r := ConfigEditor.EditConfig(reply, candidate, commit, replace, comment);
        o == r.outcome && sent == old(sent) + r.sent
    {
      var entries := ToList(candidate);
      ghost var lines := ConfigEditor.Lines(entries);
      var results: seq<string> := [];
      var requests: seq<string> := [];
      ghost var log: seq<Command> := [];
      var i := 0;
      assert lines[i..] == lines;
      ConfigEditor.PrependConfigNothing(ConfigEditor.EditLines(reply, lines));
      while i < |entries|
        invariant 0 <= i <= |entries|
        invariant sent == old(sent) + log
        invariant ConfigEditor.EditLines(reply, lines)
               == ConfigEditor.PrependConfig(requests, results, log, ConfigEditor.EditLines(reply, lines[i..]))
      {
        ConfigEditor.EditLinesFrom(reply, lines, i);
        var line := Normalize(entries[i]);
        var cmd := line.command;
        if cmd != "end" && cmd[0] != '!' {
          var r := SendCommand(line);
          if r.Failed? {
            return Err(ConnectionFailure(r.failure));
          }
          ConfigEditor.PrependConfigAssoc(requests, results, log, [cmd], [r.text], [line],
                                          ConfigEditor.EditLines(reply, lines[i + 1..]));
          results := results + [r.text];
          requests := requests + [cmd];
          log := log + [line];
        }
        i := i + 1;
      }
      assert lines[i..] == [];
      assert requests + [] == requests && results + [] == results && log + [] == log;
      o := Ok(ConfigEditor.ConfigResponse(requests, results));
    }
  }
}
