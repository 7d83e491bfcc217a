# Netvisor cliconf plugin, modelled in Dafny

This project models the Pluribus Netvisor adapter for Ansible's cliconf
layer (`ansible/plugins/cliconf/netvisor.py`). The adapter turns generic
requests into CLI commands for a Netvisor switch, sent through the host
framework's `send_command`. Three pieces of it are sequential logic:

- `get` validates its arguments before it sends one command.
- `run_commands` sends a batch. It wraps bare strings as `{'command': ...}`
  and refuses any entry with a non-empty `output`. On a connection failure it
  either re-raises (`check_rc`) or stores the failure's `err` or text in that
  entry's slot.
- `edit_config` drops the sentinel line `end` and `!` comment lines. It sends
  the other lines in order and returns parallel `request`/`response` lists.

The rest is constant capability metadata: `get_option_values`,
`get_device_info` and `get_capabilities`.

The transport is modelled as an oracle, `reply: Command -> Reply`. It gives
each command's output, or a connection failure with an optional `err`. The
class `Netvisor.Cliconf` also keeps `sent`, the log of every command passed
to `send_command`.

Files:

- `cliconf_types.dfy` (module `CliconfTypes`): command entries, the keyword
  arguments forwarded to the transport, replies, errors and outcomes. Also
  `to_list` and the string-to-mapping normalization.
- `dispatch.dfy` (module `Dispatch`): `get` and `run_commands` as functions.
  Each returns a `Run`: the outcome of the call plus the commands it sent.
  The lemmas state the ordering, length and error-policy properties.
- `config_editor.dfy` (module `ConfigEditor`): `edit_config` as a function,
  the line filter as a reference definition, and the lemmas that connect them.
- `capabilities.dfy` (module `Capabilities`): the capability records.
- `netvisor.dfy` (module `Netvisor`): the class `Cliconf`. Its methods `Get`,
  `RunCommands` and `EditConfig` run the source's loops against the sent-log.
  Each is proved to return exactly the outcome of the matching function and
  to append exactly that function's commands to `sent`. Parameter defaults
  follow the source: `check_rc=False`, `commit=True`.

Facts about the code that the model keeps:

- `check_rc` defaults to false (netvisor.py:75), so `run_commands` tolerates
  failures unless the caller asks otherwise.
- `edit_config` never reads `commit` (netvisor.py:101). The check-mode error
  at netvisor.py:117-119 is commented out, so `commit=False` is not rejected.
- `edit_config` does not catch a connection failure (netvisor.py:114).
- An entry's `output` is checked inside the loop (netvisor.py:84-86), so the
  commands before a rejected entry have already been sent.
- `get` refuses every truthy `output`, including `"text"` (netvisor.py:44-45).

## Model

| member | source | states |
|---|---|---|
| `CliconfTypes.Normalize` | ansible/plugins/cliconf/netvisor.py:81-82 | A mapping entry is kept as it is. A bare string becomes a command with that text and no `output`, so it is never rejected for its `output`. The same wrapping is used by `edit_config` at lines 109-110. |
| `CliconfTypes.ErrText` | ansible/plugins/cliconf/netvisor.py:93 | The failure's `err` attribute if it has one, otherwise its text. |
| `Dispatch.Forward` | ansible/plugins/cliconf/netvisor.py:84 | The forwarded arguments have no `output` and agree with the normalized entry on every other key. |
| `Dispatch.RunEntries` | ansible/plugins/cliconf/netvisor.py:79-97 | The `run_commands` loop as a function. It never sends more commands than there are entries, and a returned list has one slot per entry, with every entry sent. Its exact behaviour is pinned by `RunStopsAt`, `RunTolerant`, `RunAbortsOnFailure`, `RunRejectsOutput`, `RunOkIsComplete` and `RunSentIsPrefix`. |
| `Dispatch.Get` | ansible/plugins/cliconf/netvisor.py:41-47 | Nothing is sent exactly when `command` is absent or empty or `output` is truthy, and exactly then the call fails with ValueError. Otherwise the one command is forwarded without `output`, and its output or failure is the result. |
| `Dispatch.RunCommands` | ansible/plugins/cliconf/netvisor.py:75-77 | `commands=None` fails with ValueError and sends nothing. |
| `Dispatch.RunStopsAt` | ansible/plugins/cliconf/netvisor.py:79-95 | Every entry before the first one that stops the loop is sent in input order, and its response goes in its own slot in the same order. |
| `Dispatch.RunTolerant` | ansible/plugins/cliconf/netvisor.py:79-97 | Take `check_rc` false and no entry with a truthy `output`. Then the call returns exactly one response per entry, in input order, and every entry is sent. A failed entry's slot holds the failure's `err` if present, otherwise its text. |
| `Dispatch.RunAbortsOnFailure` | ansible/plugins/cliconf/netvisor.py:88-92 | With `check_rc` true, the first connection failure propagates unchanged and no response list is returned. The sent commands are exactly the entries up to and including the failing one. |
| `Dispatch.RunRejectsOutput` | ansible/plugins/cliconf/netvisor.py:80-86 | An entry with a non-empty `output` raises ValueError at that point, whatever the policy. The entries before it have been sent; that entry and the later ones have not. |
| `Dispatch.RunOkIsComplete` | ansible/plugins/cliconf/netvisor.py:79-97 | When a response list is returned, it is the reference list, with one slot per entry in order, and every entry was sent. Each entry passed the checks, so with `check_rc` no command failed. |
| `Dispatch.RunSentIsPrefix` | ansible/plugins/cliconf/netvisor.py:79-95 | On every path, the sent commands are a prefix of the forwarded entries. Nothing is sent out of order, skipped or sent twice. |
| `Dispatch.TolerantNeverRaisesFailure` | ansible/plugins/cliconf/netvisor.py:88-93 | With `check_rc` false, a connection failure never escapes. The only possible exception is the ValueError for `output`. |
| `Dispatch.SecondOfThreeFails` | ansible/plugins/cliconf/netvisor.py:88-95 | Take three commands where the second fails. With `check_rc`, the failure propagates after exactly two sends. Without it, there are three responses: the second holds the failure text and the third holds the third command's result. |
| `ConfigEditor.Sendable` | ansible/plugins/cliconf/netvisor.py:113 | `end` and lines whose first character is `!` are not sent; every other non-empty line is. |
| `ConfigEditor.EditLines` | ansible/plugins/cliconf/netvisor.py:108-115 | The `edit_config` loop as a function. It never sends more lines than it is given, and a returned record has as many requests as responses as sent lines. Its exact behaviour is pinned by `EditSendsOnlyFiltered`, `EditStopsAt`, `EditSucceeds`, `EditAbortsAt` and `EditOkIsComplete`. |
| `ConfigEditor.EditConfig` | ansible/plugins/cliconf/netvisor.py:100-123 | `edit_config` on a candidate after `to_list` and normalization. It sends at most one command per entry, and a returned record has as many requests as responses as sent lines. `CommitHasNoEffect` states that `commit` is not read. |
| `ConfigEditor.Filter` | ansible/plugins/cliconf/netvisor.py:108-113 | The filtered lines are no more than the input lines. Each one is a line of the input that is neither `end` nor starts with `!`. |
| `ConfigEditor.FilterMembership` | ansible/plugins/cliconf/netvisor.py:112-113 | A line survives the filter if and only if it is in the candidate, is not exactly `end`, and does not start with `!`. |
| `ConfigEditor.FilterAppend` | ansible/plugins/cliconf/netvisor.py:108-115 | Filtering keeps the relative order. The filter of a concatenation is the concatenation of the filters. |
| `ConfigEditor.EditSendsOnlyFiltered` | ansible/plugins/cliconf/netvisor.py:108-115 | `edit_config` behaves exactly as if it were given only the lines that pass the filter. Dropped lines are never sent. |
| `ConfigEditor.EditStopsAt` | ansible/plugins/cliconf/netvisor.py:112-115 | Sendable lines that succeed are each sent once, in order. Each adds its command text to `request` and its output to `response` at the same index. |
| `ConfigEditor.EditSucceeds` | ansible/plugins/cliconf/netvisor.py:108-123 | If no sent line fails, exactly the filtered lines are sent, in order. `request` and `response` have equal length; `request[i]` is the command text of the i-th sent line and `response[i]` is its output. |
| `ConfigEditor.EditAbortsAt` | ansible/plugins/cliconf/netvisor.py:113-114 | The first failing sendable line's failure propagates uncaught. That line and the ones before it were sent; no later line was. |
| `ConfigEditor.EditOkIsComplete` | ansible/plugins/cliconf/netvisor.py:105-123 | When a record is returned, every filtered line succeeded and the sent lines are exactly the filtered lines. `request` is their command texts and `response` is their outputs, in the same order. |
| `ConfigEditor.CommitHasNoEffect` | ansible/plugins/cliconf/netvisor.py:101-123 | `commit` true and `commit` false send the same lines and return the same record. |
| `ConfigEditor.EditExample` | ansible/plugins/cliconf/netvisor.py:108-123 | Take the lines `interface eth0`, `!comment`, `end`, `no shutdown`, and let both sendable lines succeed. Then only `interface eth0` and `no shutdown` are sent, in that order. The record is `request == ["interface eth0", "no shutdown"]` with their two outputs as `response`. |
| `Capabilities.GetOptionValues` | ansible/plugins/cliconf/netvisor.py:49-55 | The fixed option menus. `text` is the only format, `diff_match` and `diff_replace` have fixed lists, and `output` is empty. |
| `Capabilities.GetDeviceInfo` | ansible/plugins/cliconf/netvisor.py:68-72 | `network_os` is `netvisor`. |
| `Capabilities.GetCapabilities` | ansible/plugins/cliconf/netvisor.py:57-66 | `rpc` is the base rpc list with `run_commands` appended as its last element. `network_api` is `cliconf`, `device_info.network_os` is `netvisor`, and every option menu is included unchanged. |
| `Capabilities.CapabilitiesDependOnlyOnBaseRpc` | ansible/plugins/cliconf/netvisor.py:57-66 | The report is determined by the base rpc list alone, so repeated calls give equal values. Two reports are equal exactly when their base lists are. |
| `Netvisor.Cliconf.SendCommand` | ansible/plugins/cliconf/netvisor.py:89 | One transport call appends the command to the sent-log and returns the oracle's reply for it. |
| `Netvisor.Cliconf.Get` | ansible/plugins/cliconf/netvisor.py:41-47 | Returns the outcome of `Dispatch.Get` and appends exactly its sent commands (none on a validation error) to the log. |
| `Netvisor.Cliconf.RunCommands` | ansible/plugins/cliconf/netvisor.py:75-97 | The loop returns the outcome of `Dispatch.RunCommands` and appends exactly its sent commands to the log, including on each early exit. |
| `Netvisor.Cliconf.EditConfig` | ansible/plugins/cliconf/netvisor.py:100-123 | The loop returns the outcome of `ConfigEditor.EditConfig` and appends exactly its sent lines to the log. That outcome does not depend on `commit`. |

## Left out

- `send_command` and the host framework behind it (SSH session, prompts, paging) are not part of this model. The transport is an oracle that answers each command with one fixed reply, so replies that depend on earlier commands or on device state are not modelled.
- The `enable_mode` decorator, `get_base_rpc` and the unused `get_device_operations` call come from the unseen `CliconfBase`. The base rpc list is a parameter of `GetCapabilities`; the other two are not modelled.
- `get_capabilities` returns `json.dumps` of its dictionary. The model returns the dictionary as a record and does not produce JSON text.
- `to_text` is not modelled: a failure carries its text as a field. `to_list` is modelled only as its list-or-singleton wrapping of a list, a single entry or `None`.
- Only strings are modelled as `output` values; truthiness of other Python values is not covered.
- The commented-out `configure terminal`/`end` sends and the check-mode error are not modelled, because they are not live code.
- `collections` and `AnsibleConnectionFailure` are never imported, so the live code would raise NameError at the `isinstance` checks and at the `except` clause. The model assumes both names resolve.
- `Netvisor.Cliconf.EditConfig`: requires every line to have a non-empty command string, because `cmd[0]` raises IndexError on an empty one. That crash is not modelled.
- `cmd.pop('output')` also removes `output` from the caller's own dictionary. This aliasing side effect is not modelled; only the popped copy that is forwarded is.
- A mapping entry is modelled with the keys `command`, `prompt`, `answer`, `sendonly`, `check_all` and `output`. Other keyword arguments, and a mapping without `command` (a KeyError in `edit_config`), are not modelled.
