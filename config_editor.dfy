/** `edit_config` of the Netvisor plugin: which lines of a candidate are sent,
    in which order, and the `request`/`response` record it returns, as
    functions of the transport's replies. */
module ConfigEditor {
  import opened CliconfTypes

  /** The parallel lists `edit_config` returns under the keys `request`
      and `response`. */
  datatype ConfigResponse = ConfigResponse(request: seq<string>, response: seq<string>)

  /** The lines of a candidate: each entry normalized to a mapping. */
  function Lines(entries: seq<Entry>): seq<Command>
  {
    seq(|entries|, i requires 0 <= i < |entries| => Normalize(entries[i]))
  }

  /** `cmd[0]` fails on an empty command string, so every line must have one. */
  predicate NonEmptyCommands(lines: seq<Command>)
  {
    forall i :: 0 <= i < |lines| ==> lines[i].command != ""
  }

  /** A line is sent unless it is the sentinel `end` or a `!` comment. */
  predicate Sendable(line: Command)
    requires line.command != ""
    ensures line.command == "end" ==> !Sendable(line)
    ensures line.command[0] == '!' ==> !Sendable(line)
    ensures line.command != "end" && line.command[0] != '!' ==> Sendable(line)
  {
    line.command != "end" && line.command[0] != '!'
  }

  /** Reference definition: the sendable lines, in their original order. */
  function Filter(lines: seq<Command>): (r: seq<Command>)
    requires NonEmptyCommands(lines)
    ensures |r| <= |lines|
    ensures forall i :: 0 <= i < |r| ==> r[i].command != "" && Sendable(r[i])
    ensures forall l :: l in r ==> l in lines
  {
    if lines == [] then []
    else (if Sendable(lines[0]) then [lines[0]] else []) + Filter(lines[1..])
  }

  function Requests(lines: seq<Command>): seq<string>
  {
    seq(|lines|, i requires 0 <= i < |lines| => lines[i].command)
  }

  /** The transport's outputs for lines that all succeed. */
  function Outputs(reply: Command -> Reply, lines: seq<Command>): seq<string>
    requires forall i :: 0 <= i < |lines| ==> reply(lines[i]).Output?
  {
    seq(|lines|, i requires 0 <= i < |lines| => reply(lines[i]).text)
  }

  /** Put the requests, responses and commands of earlier lines in front of a
      run of the later ones; an exception of the later run discards them. */
  function PrependConfig(reqs: seq<string>, outs: seq<string>, cmds: seq<Command>, rest: Run<ConfigResponse>)
    : Run<ConfigResponse>
  {
    Run(if rest.outcome.Ok? then
          Ok(ConfigResponse(reqs + rest.outcome.value.request, outs + rest.outcome.value.response))
        else rest.outcome,
        cmds + rest.sent)
  }

  /** The loop of `edit_config`, line by line; a connection failure is not
      caught. */
  function EditLines(reply: Command -> Reply, lines: seq<Command>): (r: Run<ConfigResponse>)
    requires NonEmptyCommands(lines)
    ensures |r.sent| <= |lines|
    ensures r.outcome.Ok? ==> |r.outcome.value.request| == |r.outcome.value.response| == |r.sent|
    decreases |lines|
  {
    if lines == [] then
      Run(Ok(ConfigResponse([], [])), [])
    else
      var line := lines[0];
      if !Sendable(line) then
        EditLines(reply, lines[1..])
      else
        match reply(line)
        case Failed(f) => Run(Err(ConnectionFailure(f)), [line])
        case Output(out) => PrependConfig([line.command], [out], [line], EditLines(reply, lines[1..]))
  }

  /** `edit_config`: `commit`, `replace` and `comment` are accepted and never
      read. */
  function EditConfig(reply: Command -> Reply, candidate: Option<Batch>, commit: bool,
                      replace: Option<string>, comment: Option<string>): (r: Run<ConfigResponse>)
    requires NonEmptyCommands(Lines(ToList(candidate)))
    ensures |r.sent| <= |ToList(candidate)|
    ensures r.outcome.Ok? ==> |r.outcome.value.request| == |r.outcome.value.response| == |r.sent|
  {
    EditLines(reply, Lines(ToList(candidate)))
  }

  /** A line of the candidate survives the filter exactly when it is neither
      `end` nor a comment. */
  lemma {:induction false} FilterMembership(lines: seq<Command>)
    requires NonEmptyCommands(lines)
    ensures forall l :: l in Filter(lines) <==> (l in lines && Sendable(l))
  {
    if lines != [] {
      FilterMembership(lines[1..]);
      forall l | l in lines && Sendable(l) ensures l in Filter(lines) {
        if l != lines[0] {
          assert l in lines[1..];
        }
      }
    }
  }

  /** Filtering keeps the relative order: the sent lines of an earlier part
      of the candidate come before those of a later part. */
  lemma {:induction false} FilterAppend(a: seq<Command>, b: seq<Command>)
    requires NonEmptyCommands(a) && NonEmptyCommands(b)
    ensures NonEmptyCommands(a + b)
    ensures Filter(a + b) == Filter(a) + Filter(b)
  {
    if a != [] {
      FilterAppend(a[1..], b);
      assert (a + b)[1..] == a[1..] + b;
    } else {
      assert a + b == b;
    }
  }

  /** Only the filtered lines matter: `edit_config` behaves as if it were
      given the sendable lines alone. */
  lemma {:induction false} EditSendsOnlyFiltered(reply: Command -> Reply, lines: seq<Command>)
    requires NonEmptyCommands(lines)
    ensures NonEmptyCommands(Filter(lines))
    ensures EditLines(reply, lines) == EditLines(reply, Filter(lines))
  {
    if lines != [] {
      EditSendsOnlyFiltered(reply, lines[1..]);
      if Sendable(lines[0]) {
        var f := Filter(lines);
        assert f == [lines[0]] + Filter(lines[1..]);
        assert f[0] == lines[0] && f[1..] == Filter(lines[1..]);
      } else {
        assert Filter(lines) == Filter(lines[1..]);
      }
    }
  }

  /** One turn of the loop of `edit_config`, on the lines from `i` on. */
  lemma EditLinesFrom(reply: Command -> Reply, lines: seq<Command>, i: nat)
    requires NonEmptyCommands(lines)
    requires i < |lines|
    ensures NonEmptyCommands(lines[i..]) && NonEmptyCommands(lines[i + 1..])
    ensures var line := lines[i];
      EditLines(reply, lines[i..])
        == if !Sendable(line) then EditLines(reply, lines[i + 1..])
           else if reply(line).Failed? then Run(Err(ConnectionFailure(reply(line).failure)), [line])
           else PrependConfig([line.command], [reply(line).text], [line], EditLines(reply, lines[i + 1..]))
  {
    assert lines[i..][0] == lines[i] && lines[i..][1..] == lines[i + 1..];
  }

  lemma PrependConfigNothing(rest: Run<ConfigResponse>)
    ensures PrependConfig([], [], [], rest) == rest
  {
    if rest.outcome.Ok? {
      assert [] + rest.outcome.value.request == rest.outcome.value.request;
      assert [] + rest.outcome.value.response == rest.outcome.value.response;
    }
    assert [] + rest.sent == rest.sent;
  }

  lemma PrependConfigAssoc(reqs: seq<string>, outs: seq<string>, cmds: seq<Command>,
                           reqs': seq<string>, outs': seq<string>, cmds': seq<Command>, rest: Run<ConfigResponse>)
    ensures PrependConfig(reqs, outs, cmds, PrependConfig(reqs', outs', cmds', rest))
         == PrependConfig(reqs + reqs', outs + outs', cmds + cmds', rest)
  {
    if rest.outcome.Ok? {
      var v := rest.outcome.value;
      assert reqs + (reqs' + v.request) == (reqs + reqs') + v.request;
      assert outs + (outs' + v.response) == (outs + outs') + v.response;
    }
    assert cmds + (cmds' + rest.sent) == (cmds + cmds') + rest.sent;
  }

  /** Sendable lines that all succeed are recorded one by one, in order. */
  lemma {:induction false} EditStopsAt(reply: Command -> Reply, lines: seq<Command>, k: nat)
    requires NonEmptyCommands(lines)
    requires k <= |lines|
    requires forall j :: 0 <= j < k ==> Sendable(lines[j]) && reply(lines[j]).Output?
    ensures EditLines(reply, lines)
         == PrependConfig(Requests(lines[..k]), Outputs(reply, lines[..k]), lines[..k], EditLines(reply, lines[k..]))
  {
    if k == 0 {
      assert lines[k..] == lines;
      assert Requests(lines[..k]) == [] && Outputs(reply, lines[..k]) == [] && lines[..k] == [];
      PrependConfigNothing(EditLines(reply, lines));
    } else {
      var tail := lines[1..];
      EditStopsAt(reply, tail, k - 1);
      assert tail[k - 1..] == lines[k..];
      var line := lines[0];
      var out := reply(line).text;
      assert EditLines(reply, lines) == PrependConfig([line.command], [out], [line], EditLines(reply, tail));
      PrependConfigAssoc([line.command], [out], [line], Requests(tail[..k - 1]), Outputs(reply, tail[..k - 1]),
                         tail[..k - 1], EditLines(reply, lines[k..]));
      PrefixCons(reply, lines, k);
    }
  }

  lemma PrefixCons(reply: Command -> Reply, lines: seq<Command>, k: nat)
    requires 0 < k <= |lines|
    requires forall j :: 0 <= j < k ==> reply(lines[j]).Output?
    ensures lines[..k] == [lines[0]] + lines[1..][..k - 1]
    ensures Requests(lines[..k]) == [lines[0].command] + Requests(lines[1..][..k - 1])
    ensures Outputs(reply, lines[..k]) == [reply(lines[0]).text] + Outputs(reply, lines[1..][..k - 1])
  {
    assert lines[..k] == [lines[0]] + lines[1..][..k - 1];
  }

  /** When no sent line fails, exactly the filtered lines are sent, in order,
      and `request[i]` / `response[i]` are the command text and the output of
      the i-th of them. */
  lemma {:induction false} EditSucceeds(reply: Command -> Reply, lines: seq<Command>)
    requires NonEmptyCommands(lines)
    requires forall i :: 0 <= i < |Filter(lines)| ==> reply(Filter(lines)[i]).Output?
    ensures var r := EditLines(reply, lines); var f := Filter(lines);
      r == Run(Ok(ConfigResponse(Requests(f), Outputs(reply, f))), f)
      && |r.outcome.value.request| == |r.outcome.value.response| == |f|
  {
    var f := Filter(lines);
    EditSendsOnlyFiltered(reply, lines);
    EditStopsAt(reply, f, |f|);
    assert f[..|f|] == f && f[|f|..] == [];
    assert Requests(f) + [] == Requests(f) && Outputs(reply, f) + [] == Outputs(reply, f) && f + [] == f;
  }

  /** The first failing sendable line propagates its failure; it was sent and
      no later line was. */
  lemma {:induction false} EditAbortsAt(reply: Command -> Reply, lines: seq<Command>, k: nat)
    requires NonEmptyCommands(lines)
    requires k < |Filter(lines)|
    requires forall j :: 0 <= j < k ==> reply(Filter(lines)[j]).Output?
    requires reply(Filter(lines)[k]).Failed?
    ensures var f := Filter(lines);
      EditLines(reply, lines) == Run(Err(ConnectionFailure(reply(f[k]).failure)), f[..k + 1])
  {
    var f := Filter(lines);
    EditSendsOnlyFiltered(reply, lines);
    EditStopsAt(reply, f, k);
    var rest := f[k..];
    assert rest[0] == f[k];
    assert NonEmptyCommands(rest) && Sendable(rest[0]);
    assert EditLines(reply, rest) == Run(Err(ConnectionFailure(reply(f[k]).failure)), [f[k]]);
    assert f[..k + 1] == f[..k] + [f[k]];
  }

  /** A returned record always pairs each sent line's command text with its
      output, and the sent lines are exactly the filtered ones. */
  lemma {:induction false} EditOkIsComplete(reply: Command -> Reply, lines: seq<Command>)
    requires NonEmptyCommands(lines)
    requires EditLines(reply, lines).outcome.Ok?
    ensures var r := EditLines(reply, lines);
      r.sent == Filter(lines) && r.outcome.value.request == Requests(Filter(lines))
      && |r.outcome.value.request| == |r.outcome.value.response|
    ensures forall i :: 0 <= i < |Filter(lines)| ==> reply(Filter(lines)[i]).Output?
    ensures EditLines(reply, lines).outcome.value.response == Outputs(reply, Filter(lines))
  {
    if lines != [] {
      var tail := lines[1..];
      EditOkIsComplete(reply, tail);
      if Sendable(lines[0]) {
        var f := Filter(lines);
        assert f == [lines[0]] + Filter(tail);
        assert Requests(f) == [lines[0].command] + Requests(Filter(tail));
        assert reply(lines[0]).Output?;
        forall i | 0 <= i < |f| ensures reply(f[i]).Output? {
          if i > 0 { assert f[i] == Filter(tail)[i - 1]; }
        }
        assert Outputs(reply, f) == [reply(lines[0]).text] + Outputs(reply, Filter(tail));
      }
    }
  }

  /** `commit` has no effect on what is sent or returned. */
  lemma CommitHasNoEffect(reply: Command -> Reply, candidate: Option<Batch>,
                          replace: Option<string>, comment: Option<string>)
    requires NonEmptyCommands(Lines(ToList(candidate)))
    ensures EditConfig(reply, candidate, true, replace, comment)
         == EditConfig(reply, candidate, false, replace, comment)
  {
  }

  /** An example: the comment and the sentinel are dropped, and when both
      remaining lines succeed they are sent and recorded in order. */
  lemma EditExample(reply: Command -> Reply)
    requires reply(Normalize(Text("interface eth0"))).Output?
    requires reply(Normalize(Text("no shutdown"))).Output?
    ensures var lines := Lines([Text("interface eth0"), Text("!comment"), Text("end"), Text("no shutdown")]);
      var first, last := Normalize(Text("interface eth0")), Normalize(Text("no shutdown"));
      NonEmptyCommands(lines)
      && EditLines(reply, lines)
         == Run(Ok(ConfigResponse(["interface eth0", "no shutdown"], [reply(first).text, reply(last).text])),
                [first, last])
  {
    var lines := Lines([Text("interface eth0"), Text("!comment"), Text("end"), Text("no shutdown")]);
    var first, last := Normalize(Text("interface eth0")), Normalize(Text("no shutdown"));
    assert lines[1..][1..][1..][1..] == [];
    assert Filter(lines) == [first, last];
    EditSucceeds(reply, lines);
    assert Requests([first, last]) == ["interface eth0", "no shutdown"];
    assert Outputs(reply, [first, last]) == [reply(first).text, reply(last).text];
  }
}
