/** The capability metadata the Netvisor plugin reports. The dictionaries of
    the plugin are records here; the JSON text they are serialized to is not
    modelled. */
module Capabilities {

  /** The option menus: the keys `format`, `diff_match`, `diff_replace` and
      `output`. */
  datatype OptionValues = OptionValues(
    format: seq<string>,
    diffMatch: seq<string>,
    diffReplace: seq<string>,
    output: seq<string>)

  /** The key `network_os`. */
  datatype DeviceInfo = DeviceInfo(networkOs: string)

  /** The keys `rpc`, `network_api` and `device_info`, with the option menus
      merged in. */
  datatype Capability = Capability(
    rpc: seq<string>,
    networkApi: string,
    deviceInfo: DeviceInfo,
    options: OptionValues)

  /** Text is the only configuration format; no output format can be
      negotiated. */
  function GetOptionValues(): (r: OptionValues)
    ensures r.format == ["text"]
    ensures r.diffMatch == ["line", "strict", "exact", "none"]
    ensures r.diffReplace == ["line", "block"]
    ensures r.output == []
  {
    OptionValues(["text"], ["line", "strict", "exact", "none"], ["line", "block"], [])
  }

  function GetDeviceInfo(): (r: DeviceInfo)
    ensures r.networkOs == "netvisor"
  {
    DeviceInfo("netvisor")
  }

  /** `get_capabilities`, given the host's base rpc list: that list with
      `run_commands` appended, the cliconf api tag, the device identity and
      every option menu. */
  function GetCapabilities(baseRpc: seq<string>): (r: Capability)
    ensures |r.rpc| == |baseRpc| + 1
    ensures r.rpc[..|baseRpc|] == baseRpc && r.rpc[|baseRpc|] == "run_commands"
    ensures r.networkApi == "cliconf"
    ensures r.deviceInfo.networkOs == "netvisor"
    ensures r.options == GetOptionValues()
  {
    Capability(baseRpc + ["run_commands"], "cliconf", GetDeviceInfo(), GetOptionValues())
  }

  /** The report depends on nothing but the base rpc list: two sessions with
      the same base list report equal capabilities, whatever they have sent. */
  lemma CapabilitiesDependOnlyOnBaseRpc(a: seq<string>, b: seq<string>)
    ensures GetCapabilities(a) == GetCapabilities(b) <==> a == b
  {
    if GetCapabilities(a) == GetCapabilities(b) {
      assert a == GetCapabilities(a).rpc[..|a|];
    }
  }
}
