/** The command dispatcher: the verb of a request, the command it names, the reader a
    get goes to and the checks, rewrites and writes a set goes through. The driver, the
    kernel and hostapd are reached through `Externals`, the outcomes of those calls. */
module Commands {
  import opened Text
  import opened Protocol
  import opened LineStore
  import opened Store
  import opened Tables
  import opened Security
  import opened MacList
  import opened Wep
  import opened Radio
  import opened Modes
  import opened Wps

  /** The outcomes of the calls the dispatcher makes outside the configuration files. */
  datatype Externals = Externals(
    softapEnabled: int,             // is_softap_enabled()
    operatingChannel: Option<nat>,  // qsap_get_operating_channel(), `None` where the ioctl fails
    staMacs: Response,              // the answer of qsap_get_associated_sta_mac
    apStats: Response,              // the answer of qsap_read_ap_stats
    driverLoaded: bool,             // wifi_qsap_load_driver() succeeds
    driverUnloaded: bool,           // wifi_qsap_unload_driver() succeeds
    resetAp: int -> bool,           // the stop/start/reload sequence a reset_ap value selects succeeds
    disassoc: string -> Response,   // the answer of qsap_disassociate_sta
    softapReloaded: bool,           // wifi_qsap_reload_softap() succeeds
    hostapdAccepts: bool            // qsap_send_cmd_to_hostapd() succeeds
  )

  // ---------------------------------------------------------------------------
  // qsap_get_cmd_num

  /** A table name names the request when the request starts with it and the name is
      followed by '=' or ends the request. */
  predicate NameMatches(name: string, s: string) {
    StartsWith(s, name) && (|s| == |name| || s[|name|] == '=')
  }

  /** The names of cmd_list, in order. */
  const CmdNames: seq<string> := NamesOf(CmdTable)

  function NamesOf(t: seq<Cmd>): (r: seq<string>)
    ensures |r| == |t| && forall j :: 0 <= j < |t| ==> r[j] == Name(t[j])
  {
    if t == [] then [] else [Name(t[0])] + NamesOf(t[1..])
  }

  /** The first name from `i` on that names the request: none before it does, and it is
      missing only when none at all does. */
  function FirstNamed(names: seq<string>, s: string, i: nat): (r: Option<nat>)
    ensures r.Some? ==> i <= r.value < |names| && NameMatches(names[r.value], s)
    ensures r.Some? ==> forall j :: i <= j < r.value ==> !NameMatches(names[j], s)
    ensures r.None? <==> forall j :: i <= j < |names| ==> !NameMatches(names[j], s)
    decreases |names| - i
  {
    if i >= |names| then None
    else if NameMatches(names[i], s) then Some(i)
    else FirstNamed(names, s, i + 1)
  }

  /** qsap_get_cmd_num: the number of the command a request names, `None` for eCMD_INVALID. */
  function CmdNum(s: string): (r: Option<nat>)
    ensures r.Some? ==> r.value < |CmdTable| && NameMatches(Name(CmdTable[r.value]), s)
    ensures r.None? ==> forall j :: 0 <= j < |CmdTable| ==> !NameMatches(Name(CmdTable[j]), s)
  {
    FirstNamed(CmdNames, s, 0)
  }

  /** A name without '=' names the request "key" or "key=..." exactly when it is the key. */
  lemma MatchesByKey(name: string, key: string, rest: string)
    requires '=' !in name && '=' !in key
    requires rest == [] || rest[0] == '='
    ensures NameMatches(name, key + rest) <==> name == key
  {
    var s := key + rest;
    if |name| < |key| {
      assert s[|name|] == key[|name|];
      assert key[|name|] in key;
    } else if |key| < |name| <= |s| {
      assert s[..|name|][|key|] == s[|key|] == rest[0];
    } else if |name| == |key| {
      assert s[..|name|] == key;
    }
  }

  /** The lookup depends on the key alone: what follows '=' plays no part. */
  lemma {:induction false} FirstNamedByKey(names: seq<string>, key: string, rest: string, i: nat)
    requires forall j :: 0 <= j < |names| ==> '=' !in names[j]
    requires '=' !in key
    requires rest == [] || rest[0] == '='
    ensures FirstNamed(names, key + rest, i) == FirstNamed(names, key, i)
    decreases |names| - i
  {
    if i < |names| {
      MatchesByKey(names[i], key, rest);
      MatchesByKey(names[i], key, []);
      assert key + [] == key;
      FirstNamedByKey(names, key, rest, i + 1);
    }
  }

  /** No name in cmd_list holds '='. */
  lemma CmdNamesKeys()
    ensures forall j :: 0 <= j < |CmdNames| ==> '=' !in CmdNames[j]
  {
    forall j | 0 <= j < |CmdNames|
      ensures '=' !in CmdNames[j]
    {
      NamesAreKeys(CmdTable[j]);
    }
  }

  lemma CmdNumByKey(key: string, rest: string)
    requires '=' !in key
    requires rest == [] || rest[0] == '='
    ensures CmdNum(key + rest) == CmdNum(key)
  {
    CmdNamesKeys();
    FirstNamedByKey(CmdNames, key, rest, 0);
  }

  /** The entry a lookup finds is named by the key itself. */
  lemma CmdNumNamesKey(key: string)
    requires '=' !in key && CmdNum(key).Some?
    ensures CmdNum(key).value < |CmdTable| && Name(CmdTable[CmdNum(key).value]) == key
  {
    var c := CmdTable[CmdNum(key).value];
    NamesAreKeys(c);
    MatchesByKey(Name(c), key, []);
    assert key + [] == key;
  }

  /** The loop of qsap_get_cmd_num: the names scanned in order, the first one that names
      the request returned. */
  method FindNamed(names: seq<string>, s: string) returns (r: Option<nat>)
    ensures r == FirstNamed(names, s, 0)
  {
    var i := 0;
    while i < |names|
      invariant 0 <= i <= |names|
      invariant FirstNamed(names, s, 0) == FirstNamed(names, s, i)
    {
      var name := names[i];
      if |name| <= |s| && s[..|name|] == name && (|s| == |name| || s[|name|] == '=') {
        return Some(i);
      }
      i := i + 1;
    }
    r := None;
  }

  /** qsap_get_cmd_num, scanning cmd_list. */
  method GetCmdNum(s: string) returns (r: Option<nat>)
    ensures r == CmdNum(s)
  {
    r := FindNamed(CmdNames, s);
  }

  // ---------------------------------------------------------------------------
  // Trailing blanks of an answer

  /** The text without its trailing spaces and tabs. */
  function TrimBlanksEnd(s: string): (r: string)
    ensures |r| <= |s| && r == s[..|r|]
    ensures r == [] || !IsBlank(r[|r| - 1])
    ensures forall k :: |r| <= k < |s| ==> IsBlank(s[k])
  {
    if s != [] && IsBlank(s[|s| - 1]) then TrimBlanksEnd(s[..|s| - 1]) else s
  }

  /** The loop at the end of qsap_get_from_config: the length of the answer once its
      trailing blanks are cut. */
  method TrimLoop(s: string) returns (n: nat)
    ensures n <= |s| && s[..n] == TrimBlanksEnd(s)
  {
    n := |s|;
    while n > 0 && IsBlank(s[n - 1])
      invariant n <= |s|
      invariant TrimBlanksEnd(s[..n]) == TrimBlanksEnd(s)
    {
      assert s[..n][..n - 1] == s[..n - 1];
      n := n - 1;
    }
    assert s[..n] == s[..n][..n];
  }

  /** An answer with its trailing blanks cut; the "success" that starts every line is
      never blank, so a value of blanks only leaves the bare "success". */
  function Trimmed(r: Response): Response {
    if r.Success? then Success(TrimBlanksEnd(r.text)) else r
  }

  // ---------------------------------------------------------------------------
  // qsap_get_from_config

  /** Where a get of each command takes its answer from. */
  datatype GetRule =
    | ConfRead(withComments: bool)  // qsap_read_cfg of the command in the configuration file
    | IniRead(entry: Command)        // qsap_read_cfg of an ini entry, answered under the command's name
    | WepRead | ChannelRead | ListRead | SecurityModeRead | MacRead | WpsStateRead
    | AutoShutoffRead | SoftapState | StaList | ApStats
    | NoGet                          // ERR_INVALID_ARG

  function GetRuleOf(c: Cmd): GetRule {
    match c
    case EnableSoftap => SoftapState
    case WpaPairwise | RsnPairwise | WepDefaultKey | WpaPassphrase | WpaGroupRekey => ConfRead(true)
    case Ssid | IgnoreBroadcastSsid | BeaconInt | DtimPeriod | HwMode | AuthAlgs | MacaddrAcl
       | ConfigMethods | Uuid | DeviceName | Manufacturer | ModelName | ModelNumber | SerialNumber
       | DeviceType | OsVersion | FriendlyName | ManufacturerUrl | ModelDescription | ModelUrl | Upc
       | SdkVersion | CountryCode | ApIsolate => ConfRead(false)
    case WepKey0 | WepKey1 | WepKey2 | WepKey3 => WepRead
    case Channel => ChannelRead
    case FragmThreshold => IniRead(FragThresholdInIni)
    case Ieee80211d => IniRead(Dot11dInIni)
    case RtsThreshold => IniRead(RtsThresholdInIni)
    case AllowList | DenyList => ListRead
    case SecurityMode => SecurityModeRead
    case MacAddress => MacRead
    case WmmEnabled => IniRead(WmmInIni)
    case WpsState => WpsStateRead
    case ProtectionFlag => IniRead(ProtFlagInIni)
    case DataRate => IniRead(DataRateInIni)
    case StaMacList => StaList
    case TxPower => IniRead(TxPowerInIni)
    case Apstat => ApStats
    case AutoShutOffTime => AutoShutoffRead
    case EnergyDetectThreshold => IniRead(EnergyDetectInIni)
    case _ => NoGet
  }

  /** qsap_get_from_config: the answer of the reader, trailing blanks cut. */
  function GetFromConfig(fs: Fs, h: Header, ext: Externals, c: Cmd): Response {
    var conf, ini := h.confFile, h.iniFile;
    var cmd := CommandOf(c, h.sdkVersion);
    Trimmed(
      match GetRuleOf(c)
      case ConfRead(wc) => ReadCfg(fs, conf, cmd, None, wc)
      case IniRead(e) => ReadCfg(fs, ini, e, Some(Name(c)), false)
      case WepRead => ReadWep(fs, conf, cmd)
      case ChannelRead => ReadChannel(fs, conf, h.sdkVersion, ext.operatingChannel)
      case ListRead => GetMacList(fs, conf, c)
      case SecurityModeRead => SecurityRead(fs, conf).resp
      case MacRead => ReadMacAddress(fs, ini)
      case WpsStateRead => ReadWpsState(fs, conf, h)
      case AutoShutoffRead => ReadAutoShutoff(fs, ini)
      case SoftapState => Success(Name(c) + "=" + IntToString(ext.softapEnabled))
      case StaList => ext.staMacs
      case ApStats => ext.apStats
      case NoGet => Failure(InvalidArg))
  }

  /** qsap_handle_get_request, on the request after "get" and its blanks. */
  function HandleGet(fs: Fs, h: Header, ext: Externals, req: string): Response {
    match CmdNum(req)
    case None => Failure(InvalidParam)
    case Some(i) => GetFromConfig(fs, h, ext, CmdTable[i])
  }

  // ---------------------------------------------------------------------------
  // qsap_handle_set_request

  /** The check a value of a stored command passes. */
  datatype Check =
    | Anything     // no check
    | TextLength   // IS_VALID_<...>_LEN(strlen(value))
    | Number       // IS_VALID_<...>(atoi(value))
    | SsidLength   // strlen(value) <= SSD_MAX_LEN
    | CountryLength  // strlen(value) <= CTRY_MAX_LEN

  /** The form in which a stored command's value is written. */
  datatype Form =
    | Raw          // as given
    | Canonical    // "%ld" of atoi(value)
    | Canonical3   // "%ld" of atoi(value) into sizeof(u32) bytes: three characters at most
    | InSeconds    // "%ld" of atoi(value) * 60

  /** What a set of each command does. `Stored` commands fall through to the common write:
      to the configuration file under the command's name, or to an ini entry. */
  datatype SetRule =
    | Stored(check: Check, form: Form, iniEntry: Option<Command>)
    | ByMacList(allow: bool, add: bool)
    | BySecMode | ByAcl | ByCommit | BySoftap | ByChannel | ByHwMode | ByWepIndex | ByPairwise
    | ByWepKey | ByResetAp | ByDisassoc | ByDefaults | ByDataRate | ByWpsState | ByWpsMethod
    | ByIntraBss

  function SetRuleOf(c: Cmd): SetRule {
    match c
    case AddToAllowList => ByMacList(true, true)
    case RemoveFromAllowList => ByMacList(true, false)
    case AddToDenyList => ByMacList(false, true)
    case RemoveFromDenyList => ByMacList(false, false)
    case SecurityMode => BySecMode
    case MacaddrAcl => ByAcl
    case Commit => ByCommit
    case EnableSoftap => BySoftap
    case Ssid => Stored(SsidLength, Raw, None)
    case IgnoreBroadcastSsid | BeaconInt | DtimPeriod | AuthAlgs | Ieee80211d => Stored(Number, Canonical, None)
    case WpaPassphrase => Stored(TextLength, Raw, None)
    case Channel => ByChannel
    case HwMode => ByHwMode
    case WepDefaultKey => ByWepIndex
    case WpaPairwise | RsnPairwise => ByPairwise
    case WepKey0 | WepKey1 | WepKey2 | WepKey3 => ByWepKey
    case ResetAp => ByResetAp
    case DisassocSta => ByDisassoc
    case ResetToDefault => ByDefaults
    case DataRate => ByDataRate
    case Uuid | DeviceName | Manufacturer | ModelName | ModelNumber | SerialNumber | DeviceType
       | OsVersion | FriendlyName | ManufacturerUrl | ModelUrl | ModelDescription | Upc =>
      Stored(TextLength, Raw, None)
    case WmmEnabled => Stored(Number, Canonical, Some(WmmInIni))
    case WpsState => ByWpsState
    case ConfigMethods => ByWpsMethod
    case ProtectionFlag => Stored(Number, Canonical, Some(ProtFlagInIni))
    case FragmThreshold => Stored(Number, Canonical, Some(FragThresholdInIni))
    case RtsThreshold => Stored(Number, Canonical, Some(RtsThresholdInIni))
    case WpaGroupRekey => Stored(Number, Raw, None)
    case TxPower => Stored(Number, Canonical3, Some(TxPowerInIni))
    case ApIsolate => ByIntraBss
    case CountryCode => Stored(CountryLength, Raw, None)
    case AutoShutOffTime => Stored(Number, InSeconds, Some(AutoShutOffInIni))
    case EnergyDetectThreshold => Stored(Number, Canonical, Some(EnergyDetectInIni))
    case _ => Stored(Anything, Raw, None)
  }

  /** Whether a value passes a check. */
  predicate Passes(h: Header, c: Cmd, check: Check, v: string) {
    match check
    case Anything => true
    case TextLength => h.validLength(c, |v|)
    case Number => h.validNumber(c, Atoi(v))
    case SsidLength => |v| <= h.ssidMaxLen
    case CountryLength => |v| <= h.countryMaxLen
  }

  /** The text a value is written as. */
  function Written(form: Form, v: string): string {
    match form
    case Raw => v
    case Canonical => IntToString(Atoi(v))
    case Canonical3 => var t := IntToString(Atoi(v)); if |t| <= 3 then t else t[..3]
    case InSeconds => IntToString(Atoi(v) * 60)
  }

  /** The first mode of the hw_mode table with the given name. */
  function ModeIndexFrom(v: string, k: nat): (r: Option<nat>)
    ensures r.Some? ==> k <= r.value < |HwModes| && HwModes[r.value] == v
    ensures r.None? ==> forall j :: k <= j < |HwModes| ==> HwModes[j] != v
    decreases |HwModes| - k
  {
    if k >= |HwModes| then None
    else if HwModes[k] == v then Some(k)
    else ModeIndexFrom(v, k + 1)
  }

  /** After a WEP entry is written: unless the security mode read back is WEP, the entry is
      commented out, and a failure of that is ERR_INVALID_PARAM. */
  function WepUnlessWep(fs: Fs, conf: string, c: Cmd, s: Step): Step {
    if SecurityRead(s.fs, conf).mode == SecModeWep then s
    else match ChangeCfg(s.fs, conf, Name(c), false)
         case None => Step(s.fs, Failure(InvalidParam))
         case Some(f) => Step(f, s.resp)
  }

  /** add_to/remove_from_allow/deny_list: the list file named in the configuration file,
      ERR_RES_UNAVAILABLE when it names none. */
  function MacListSet(fs: Fs, conf: string, allow: bool, add: bool, v: string): Step {
    match ListFilePath(fs, conf, if allow then AcceptMacFile else DenyMacFile)
    case None => Step(fs, Failure(ResUnavailable))
    case Some(path) => if add then AddMacs(fs, path, v) else RemoveFromFile(fs, path, v)
  }

  /** macaddr_acl: the accept list on and the deny list off for the allow policy, the other
      way round otherwise; then the value, cut to three characters. */
  function AclSet(fs: Fs, conf: string, allow: bool, v: string): Step {
    match ChangeCfg(fs, conf, AcceptMacFile.name, allow)
    case None => Step(fs, Failure(InvalidParam))
    case Some(f1) =>
      match ChangeCfg(f1, conf, DenyMacFile.name, !allow)
      case None => Step(f1, Failure(InvalidParam))
      case Some(f2) => WriteCfg(f2, conf, Name(MacaddrAcl), Written(Canonical3, v), false)
  }

  /** hw_mode: the value must name one of the modes. */
  function HwModeSet(fs: Fs, conf: string, v: string): Step {
    match ModeIndexFrom(v, 0)
    case None => Step(fs, Failure(InvalidParam))
    case Some(mode) => OperatingModeSet(fs, conf, mode, v)
  }

  /** wpa_pairwise and rsn_pairwise: 802.11n is commented out for TKIP alone and kept on
      otherwise, then the value is written. */
  function PairwiseSet(fs: Fs, conf: string, c: Cmd, v: string): Step {
    match ChangeCfg(fs, conf, Ht80211n.name, v != "TKIP")
    case None => Step(fs, Failure(InvalidParam))
    case Some(f) => WriteCfg(f, conf, Name(c), v, false)
  }

  /** wep_key0..3: a valid key is written in the form the daemon reads. */
  function WepKeySet(fs: Fs, conf: string, c: Cmd, v: string): Step {
    match WepKey(v)
    case None => Step(fs, Failure(InvalidParam))
    case Some(stored) => WepUnlessWep(fs, conf, c, WriteCfg(fs, conf, Name(c), stored, false))
  }

  /** reset_to_default: both files copied back from their defaults, then the daemon reloaded. */
  function DefaultsSet(fs: Fs, h: Header, reloaded: bool): Step {
    match Store.ResetToDefault(fs, h.confFile, h.defaultConfFile)
    case None => Step(fs, Failure(Unknown))
    case Some(f1) =>
      match Store.ResetToDefault(f1, h.iniFile, h.defaultIniFile)
      case None => Step(f1, Failure(Unknown))
      case Some(f2) => Step(f2, if reloaded then Ok else Failure(Unknown))
  }

  /** ap_isolate: the entry is uncommented for any value but the disable one. */
  function IntraBssSet(fs: Fs, conf: string, n: int): Step {
    match ChangeCfg(fs, conf, Name(ApIsolate), n != Disable)
    case None => Step(fs, Failure(Unknown))
    case Some(f) => Step(f, Ok)
  }

  /** The common write of qsap_handle_set_request: the value checked, then written in its
      form to the configuration file under the command's name, or to an ini entry. */
  function StoredSet(fs: Fs, h: Header, c: Cmd, check: Check, form: Form, e: Option<Command>,
                     v: string): (r: Step)
    ensures !Passes(h, c, check, v) ==> r == Step(fs, Failure(InvalidParam))
    ensures Passes(h, c, check, v) && e.None? ==> r.fs.Keys == fs.Keys
  {
    if !Passes(h, c, check, v) then Step(fs, Failure(InvalidParam))
    else if e.Some? then WriteCfg(fs, h.iniFile, e.value.name, Written(form, v), true)
    else WriteCfg(fs, h.confFile, Name(c), Written(form, v), false)
  }

  /** The commands with a case of their own in qsap_handle_set_request, once the number
      check those that have one make has passed. */
  function SpecialSet(fs: Fs, h: Header, ext: Externals, c: Cmd, rule: SetRule, v: string): Step
    requires !rule.Stored?
  {
    var conf, ini := h.confFile, h.iniFile;
    var n := Atoi(v);
    match rule
    case ByMacList(allow, add) => MacListSet(fs, conf, allow, add, v)
    case BySecMode => SecuritySet(fs, conf, n)
    case ByAcl => AclSet(fs, conf, n == h.aclAllowList, v)
    case ByCommit => Step(fs, Ok)
    case BySoftap =>
      var ok := if v != [] && v[0] == '0' then ext.driverUnloaded else ext.driverLoaded;
      Step(fs, if ok then Ok else Failure(CouldNotEnableSoftap))
    case ByChannel => ChannelSet(fs, conf, h.sdkVersion, n)
    case ByHwMode => HwModeSet(fs, conf, v)
    case ByWepIndex => WepUnlessWep(fs, conf, c, WriteCfg(fs, conf, Name(c), IntToString(n), false))
    case ByPairwise =>
      if !h.validPairwise(v) then Step(fs, Failure(InvalidParam)) else PairwiseSet(fs, conf, c, v)
    case ByWepKey => WepKeySet(fs, conf, c, v)
    case ByResetAp => Step(fs, if ext.resetAp(n) then Ok else Failure(Unknown))
    case ByDisassoc => Step(fs, ext.disassoc(v))
    case ByDefaults => DefaultsSet(fs, h, ext.softapReloaded)
    case ByDataRate => DataRateSet(fs, conf, ini, h, n)
    case ByWpsState => WpsUpdate(fs, conf, h, IntToString(n))
    case ByWpsMethod => Step(fs, WpsMethod(h, v, ext.hostapdAccepts))
    case ByIntraBss => IntraBssSet(fs, conf, n)
  }

  /** The command-specific part of qsap_handle_set_request, once the command is known and
      `v` is the text after its '='. A value refused by its check is ERR_INVALID_PARAM and
      leaves the files as they were. */
  function SetCommand(fs: Fs, h: Header, ext: Externals, c: Cmd, v: string): (r: Step)
    ensures SetRuleOf(c).Stored? && !Passes(h, c, SetRuleOf(c).check, v)
            ==> r == Step(fs, Failure(InvalidParam))
    ensures NumberChecked(SetRuleOf(c)) && !h.validNumber(c, Atoi(v))
            ==> r == Step(fs, Failure(InvalidParam))
    ensures SetRuleOf(c) == ByHwMode && ModeIndexFrom(v, 0).None?
            ==> r == Step(fs, Failure(InvalidParam))
    ensures SetRuleOf(c) == ByWepKey && WepKey(v).None? ==> r == Step(fs, Failure(InvalidParam))
  {
    match SetRuleOf(c)
    case Stored(check, form, e) => StoredSet(fs, h, c, check, form, e, v)
    case _ =>
      if NumberChecked(SetRuleOf(c)) && !h.validNumber(c, Atoi(v)) then Step(fs, Failure(InvalidParam))
      else SpecialSet(fs, h, ext, c, SetRuleOf(c), v)
  }

  /** The special rules that refuse a value whose number the header rejects. */
  predicate NumberChecked(rule: SetRule) {
    rule.BySecMode? || rule.ByAcl? || rule.BySoftap? || rule.ByWepIndex? || rule.ByWpsState?
    || rule.ByIntraBss?
  }

  /** Whether a command needs a value: all but commit and reset_to_default. */
  predicate NeedsValue(c: Cmd) {
    c != Commit && c != ResetToDefault
  }

  /** qsap_handle_set_request, on the request after "set" and its blanks: an unknown
      command and a missing or empty value are ERR_INVALID_ARG. */
  function HandleSet(fs: Fs, h: Header, ext: Externals, req: string): Step {
    match CmdNum(req)
    case None => Step(fs, Failure(InvalidArg))
    case Some(i) =>
      var c := CmdTable[i];
      var rest := req[|Name(c)|..];
      if NeedsValue(c) && (rest == [] || rest[0] != '=' || |rest| < 2) then Step(fs, Failure(InvalidArg))
      else SetCommand(fs, h, ext, c, if rest == [] then [] else rest[1..])
  }

  // ---------------------------------------------------------------------------
  // qsap_hostd_exec_cmd

  /** A request starts with the verb followed by a blank. */
  predicate HasVerb(s: string, verb: string) {
    StartsWith(s, verb) && |s| > |verb| && IsBlank(s[|verb|])
  }

  /** qsap_hostd_exec_cmd: leading blanks skipped, "get" or "set" and a blank, anything
      else ERR_INVALIDREQ. A get never changes the files. */
  function ExecCmd(fs: Fs, h: Header, ext: Externals, line: string): (r: Step)
    ensures !HasVerb(SkipBlanks(line), "set") ==> r.fs == fs
    ensures !HasVerb(SkipBlanks(line), "get") && !HasVerb(SkipBlanks(line), "set")
            ==> r.resp == Failure(InvalidRequest)
  {
    var s := SkipBlanks(line);
    if HasVerb(s, "get") then Step(fs, HandleGet(fs, h, ext, SkipBlanks(s[3..])))
    else if HasVerb(s, "set") then HandleSet(fs, h, ext, SkipBlanks(s[3..]))
    else Step(fs, Failure(InvalidRequest))
  }

  // ---------------------------------------------------------------------------
  // Properties of the dispatcher

  /** A number ends in a digit. */
  lemma IntEndsInDigit(n: int)
    ensures var t := IntToString(n); IsDigit(t[|t| - 1])
  {
    var t := IntToString(n);
    var d := NatToString(if n < 0 then -n else n);
    assert t[|t| - 1] == d[|d| - 1];
  }

  /** A value written in one of the number forms ends in a digit. */
  lemma WrittenEndsInDigit(form: Form, v: string)
    requires form != Raw
    ensures var w := Written(form, v); w != [] && IsDigit(w[|w| - 1])
  {
    var n := if form == InSeconds then Atoi(v) * 60 else Atoi(v);
    var t := IntToString(n);
    IntEndsInDigit(n);
    if form == Canonical3 && |t| > 3 {
      var d := NatToString(if n < 0 then -n else n);
      assert t[2] == d[2 - (|t| - |d|)];
    }
  }

  /** The answer of a number under a key loses nothing when its trailing blanks are cut. */
  lemma NumberAnswer(key: string, n: int)
    ensures Trimmed(Success(key + "=" + IntToString(n))) == Success(key + "=" + IntToString(n))
  {
    IntEndsInDigit(n);
    TrimKeeps(key, IntToString(n));
  }

  /** What a set stores in the common write is read back as stored, under the command's
      name: a raw value that is one line and does not end in a blank, any value for the
      number forms. */
  predicate ReadsBack(form: Form, v: string) {
    form != Raw || (OneLine(v) && (v == [] || !IsBlank(v[|v| - 1])))
  }

  lemma PlainWritten(form: Form, v: string)
    requires ReadsBack(form, v)
    ensures var w := Written(form, v);
            OneLine(w) && (w == [] || !IsBlank(w[|w| - 1]))
  {
    if form != Raw {
      WrittenEndsInDigit(form, v);
      WrittenNoNewline(form, v);
    }
  }

  /** A value written in one of the number forms has no line feed. */
  lemma WrittenNoNewline(form: Form, v: string)
    requires form != Raw
    ensures '\n' !in Written(form, v)
  {
    var n := if form == InSeconds then Atoi(v) * 60 else Atoi(v);
    var t := IntToString(n);
    NumberChars(n);
    assert forall i :: 0 <= i < |Written(form, v)| ==> Written(form, v)[i] == t[i];
  }

  /** A key, '=' and a value that does not end in a blank lose nothing when the trailing
      blanks of the answer are cut. */
  lemma TrimKeeps(key: string, w: string)
    requires w == [] || !IsBlank(w[|w| - 1])
    ensures TrimBlanksEnd(key + "=" + w) == key + "=" + w
  {
    var s := key + "=" + w;
    assert s[|s| - 1] == if w == [] then '=' else w[|w| - 1];
  }

  /** Every command stored in a number form has its value checked as a number. */
  lemma NumberFormsChecked(c: Cmd)
    requires SetRuleOf(c).Stored? && SetRuleOf(c).form != Raw
    ensures SetRuleOf(c).check == Number
  {
  }

  /** The set handler writes back the number of a value rather than its text: a set of
      `01` or `001` does exactly what a set of `1` does, for every command stored in a
      number form. */
  lemma SetOfNumberCanonical(fs: Fs, h: Header, ext: Externals, c: Cmd, v: string)
    requires SetRuleOf(c).Stored? && SetRuleOf(c).form != Raw
    ensures SetCommand(fs, h, ext, c, v) == SetCommand(fs, h, ext, c, IntToString(Atoi(v)))
  {
    var rule, t := SetRuleOf(c), IntToString(Atoi(v));
    NumberFormsChecked(c);
    StoredSteps(fs, h, ext, c, v);
    StoredSteps(fs, h, ext, c, t);
    NumberAgrees(h, c, rule.form, v);
  }

  /** A value and its number's text pass the number check alike and are written alike. */
  lemma NumberAgrees(h: Header, c: Cmd, form: Form, v: string)
    requires form != Raw
    ensures Passes(h, c, Number, v) == Passes(h, c, Number, IntToString(Atoi(v)))
    ensures Written(form, v) == Written(form, IntToString(Atoi(v)))
  {
    AtoiOfIntToString(Atoi(v));
  }

  /** A command of the common write goes straight to it. */
  lemma StoredSteps(fs: Fs, h: Header, ext: Externals, c: Cmd, v: string)
    requires SetRuleOf(c).Stored?
    ensures var rule := SetRuleOf(c);
            SetCommand(fs, h, ext, c, v) == StoredSet(fs, h, c, rule.check, rule.form, rule.iniEntry, v)
  {
  }

  /** A set of a command kept in the configuration file, then a get of it: the name and
      the value as written. */
  lemma ConfRoundTrip(fs: Fs, h: Header, ext: Externals, c: Cmd, v: string)
    requires h.confFile in fs
    requires SetRuleOf(c).Stored? && SetRuleOf(c).iniEntry.None?
    requires Passes(h, c, SetRuleOf(c).check, v) && ReadsBack(SetRuleOf(c).form, v)
    requires GetRuleOf(c).ConfRead?
    ensures var r := SetCommand(fs, h, ext, c, v);
            r.resp == Ok
            && GetFromConfig(r.fs, h, ext, c) == Success(Name(c) + "=" + Written(SetRuleOf(c).form, v))
  {
    var w := Written(SetRuleOf(c).form, v);
    var r := SetCommand(fs, h, ext, c, v);
    ConfSteps(fs, h, ext, c, v);
    ConfSteps(r.fs, h, ext, c, v);
    PlainWritten(SetRuleOf(c).form, v);
    ConfReadBack(fs, h, c, w, GetRuleOf(c).withComments);
  }

  /** The entry of a command written to the configuration file, read back and trimmed. */
  lemma ConfReadBack(fs: Fs, h: Header, c: Cmd, w: string, wc: bool)
    requires h.confFile in fs
    requires OneLine(w) && (w == [] || !IsBlank(w[|w| - 1]))
    ensures Trimmed(ReadCfg(WriteCfg(fs, h.confFile, Name(c), w, false).fs, h.confFile,
                            CommandOf(c, h.sdkVersion), None, wc))
            == Success(Name(c) + "=" + w)
  {
    NamesAreKeys(c);
    ReadAfterWrite(fs[h.confFile], Name(c), w, false, Default(c, h.sdkVersion), None, wc);
    TrimKeeps(Name(c), w);
  }

  /** A set of a command kept in the configuration file writes its entry; a get reads it. */
  lemma ConfSteps(fs: Fs, h: Header, ext: Externals, c: Cmd, v: string)
    requires SetRuleOf(c).Stored? && SetRuleOf(c).iniEntry.None?
    requires Passes(h, c, SetRuleOf(c).check, v)
    requires GetRuleOf(c).ConfRead?
    ensures SetCommand(fs, h, ext, c, v)
            == WriteCfg(fs, h.confFile, Name(c), Written(SetRuleOf(c).form, v), false)
    ensures GetFromConfig(fs, h, ext, c)
            == Trimmed(ReadCfg(fs, h.confFile, CommandOf(c, h.sdkVersion), None, GetRuleOf(c).withComments))
  {
  }

  /** The commands a set keeps in the ini file. */
  predicate IniStored(c: Cmd) {
    c.WmmEnabled? || c.ProtectionFlag? || c.FragmThreshold? || c.RtsThreshold? || c.TxPower?
    || c.AutoShutOffTime? || c.EnergyDetectThreshold?
  }

  lemma IniStoredCmds(c: Cmd)
    requires SetRuleOf(c).Stored? && SetRuleOf(c).iniEntry.Some?
    ensures IniStored(c)
  {
  }

  /** Every command a set keeps in the ini file but the shut-off time is read back by a get
      from the same ini entry, and that entry is one of the ini names. */
  lemma IniRulesAgree(c: Cmd)
    requires SetRuleOf(c).Stored? && SetRuleOf(c).iniEntry.Some? && c != AutoShutOffTime
    ensures GetRuleOf(c) == IniRead(SetRuleOf(c).iniEntry.value)
    ensures SetRuleOf(c).iniEntry.value in IniEntries
    ensures SetRuleOf(c).form != Raw
  {
    IniStoredCmds(c);
    if c.WmmEnabled? || c.ProtectionFlag? || c.FragmThreshold? {
      IniAgree0(c);
    } else {
      IniAgree1(c);
    }
  }

  lemma IniAgree0(c: Cmd)
    requires c.WmmEnabled? || c.ProtectionFlag? || c.FragmThreshold?
    ensures SetRuleOf(c).iniEntry.Some? && GetRuleOf(c) == IniRead(SetRuleOf(c).iniEntry.value)
    ensures SetRuleOf(c).iniEntry.value in IniEntries && SetRuleOf(c).form != Raw
  {
    if c.WmmEnabled? {
      assert SetRuleOf(c).iniEntry == Some(WmmInIni) && WmmInIni == IniEntries[8];
    } else if c.ProtectionFlag? {
      assert SetRuleOf(c).iniEntry == Some(ProtFlagInIni) && ProtFlagInIni == IniEntries[1];
    } else {
      assert SetRuleOf(c).iniEntry == Some(FragThresholdInIni) && FragThresholdInIni == IniEntries[4];
    }
  }

  lemma IniAgree1(c: Cmd)
    requires c.RtsThreshold? || c.TxPower? || c.EnergyDetectThreshold?
    ensures SetRuleOf(c).iniEntry.Some? && GetRuleOf(c) == IniRead(SetRuleOf(c).iniEntry.value)
    ensures SetRuleOf(c).iniEntry.value in IniEntries && SetRuleOf(c).form != Raw
  {
    if c.RtsThreshold? {
      assert SetRuleOf(c).iniEntry == Some(RtsThresholdInIni) && RtsThresholdInIni == IniEntries[5];
    } else if c.TxPower? {
      assert SetRuleOf(c).iniEntry == Some(TxPowerInIni) && TxPowerInIni == IniEntries[3];
    } else {
      assert SetRuleOf(c).iniEntry == Some(EnergyDetectInIni) && EnergyDetectInIni == IniEntries[11];
    }
  }

  /** A set of a command kept in the ini file, then a get of it: the command's name and the
      number as written. */
  lemma IniRoundTrip(fs: Fs, h: Header, ext: Externals, c: Cmd, v: string)
    requires h.iniFile in fs
    requires SetRuleOf(c).Stored? && SetRuleOf(c).iniEntry.Some? && c != AutoShutOffTime
    requires Passes(h, c, SetRuleOf(c).check, v)
    ensures var r := SetCommand(fs, h, ext, c, v);
            r.resp == Ok
            && GetFromConfig(r.fs, h, ext, c) == Success(Name(c) + "=" + Written(SetRuleOf(c).form, v))
  {
    var e := SetRuleOf(c).iniEntry.value;
    var w := Written(SetRuleOf(c).form, v);
    var r := SetCommand(fs, h, ext, c, v);
    IniRulesAgree(c);
    IniSteps(fs, h, ext, c, v);
    IniSteps(r.fs, h, ext, c, v);
    IniNamesAreKeys(e);
    PlainWritten(SetRuleOf(c).form, v);
    ReadAfterWrite(fs[h.iniFile], e.name, w, true, e.dflt, Some(Name(c)), false);
    TrimKeeps(Name(c), w);
  }

  /** A set of a command kept in the ini file writes its ini entry; a get reads that entry
      back under the command's name. */
  lemma IniSteps(fs: Fs, h: Header, ext: Externals, c: Cmd, v: string)
    requires SetRuleOf(c).Stored? && SetRuleOf(c).iniEntry.Some?
    requires GetRuleOf(c) == IniRead(SetRuleOf(c).iniEntry.value)
    requires Passes(h, c, SetRuleOf(c).check, v)
    ensures var e := SetRuleOf(c).iniEntry.value;
            SetCommand(fs, h, ext, c, v) == WriteCfg(fs, h.iniFile, e.name, Written(SetRuleOf(c).form, v), true)
            && GetFromConfig(fs, h, ext, c) == Trimmed(ReadCfg(fs, h.iniFile, e, Some(Name(c)), false))
  {
  }

  /** A set kept in the configuration file touches no other entry of any file, when a raw
      value has no line feed. */
  lemma StoredFrame(fs: Fs, h: Header, ext: Externals, c: Cmd, v: string,
                    p: string, cmd: Command, out: Option<string>, wc: bool)
    requires SetRuleOf(c).Stored? && SetRuleOf(c).iniEntry.None?
    requires IsKey(cmd.name) && cmd.name != Name(c)
    requires SetRuleOf(c).form == Raw ==> '\n' !in v
    ensures ReadCfg(SetCommand(fs, h, ext, c, v).fs, p, cmd, out, wc) == ReadCfg(fs, p, cmd, out, wc)
  {
    var rule := SetRuleOf(c);
    StoredSteps(fs, h, ext, c, v);
    if Passes(h, c, rule.check, v) {
      var w := Written(rule.form, v);
      if rule.form != Raw {
        WrittenNoNewline(rule.form, v);
      }
      NamesAreKeys(c);
      WriteReadFrame(fs, h.confFile, Name(c), w, false, p, cmd, out, wc);
      assert StoredSet(fs, h, c, rule.check, rule.form, rule.iniEntry, v)
             == WriteCfg(fs, h.confFile, Name(c), w, false);
    }
  }

  /** A set of the shut-off time writes the seconds to its ini entry; a get reads them back. */
  lemma AutoShutoffSteps(fs: Fs, h: Header, ext: Externals, c: Cmd, v: string)
    requires SetRuleOf(c) == Stored(Number, InSeconds, Some(AutoShutOffInIni))
    requires GetRuleOf(c) == AutoShutoffRead
    requires h.validNumber(c, Atoi(v))
    ensures SetCommand(fs, h, ext, c, v)
            == WriteCfg(fs, h.iniFile, AutoShutOffInIni.name, AutoShutoffStored(Atoi(v)), true)
    ensures GetFromConfig(fs, h, ext, c) == Trimmed(ReadAutoShutoff(fs, h.iniFile))
  {
  }

  /** The shut-off time is set in minutes, kept in seconds and read back in minutes, as
      long as the seconds fit in 32 bits. */
  lemma AutoShutoffSetGet(fs: Fs, h: Header, ext: Externals, c: Cmd, v: string)
    requires SetRuleOf(c) == Stored(Number, InSeconds, Some(AutoShutOffInIni))
    requires GetRuleOf(c) == AutoShutoffRead
    requires h.iniFile in fs && h.validNumber(c, Atoi(v))
    requires 0 <= Atoi(v) * 60 < U32
    ensures var r := SetCommand(fs, h, ext, c, v);
            r.resp == Ok
            && GetFromConfig(r.fs, h, ext, c) == Success(Name(AutoShutOffTime) + "=" + IntToString(Atoi(v)))
  {
    var r := SetCommand(fs, h, ext, c, v);
    AutoShutoffSteps(fs, h, ext, c, v);
    AutoShutoffSteps(r.fs, h, ext, c, v);
    AutoShutoffRoundTrip(fs, h.iniFile, Atoi(v));
    NumberAnswer(Name(AutoShutOffTime), Atoi(v));
  }

  /** auto_shut_off_time is set and read by those rules. */
  lemma AutoShutoffRules()
    ensures SetRuleOf(AutoShutOffTime) == Stored(Number, InSeconds, Some(AutoShutOffInIni))
    ensures GetRuleOf(AutoShutOffTime) == AutoShutoffRead
  {
  }

  /** A set of the WPS state is the WPS update with the number written back; a get is the
      WPS state read. */
  lemma WpsStateSteps(fs: Fs, h: Header, ext: Externals, c: Cmd, v: string)
    requires SetRuleOf(c) == ByWpsState && GetRuleOf(c) == WpsStateRead
    requires h.validNumber(c, Atoi(v))
    ensures SetCommand(fs, h, ext, c, v) == WpsUpdate(fs, h.confFile, h, IntToString(Atoi(v)))
    ensures GetFromConfig(fs, h, ext, c) == Trimmed(ReadWpsState(fs, h.confFile, h))
  {
  }

  /** The WPS state is read back as the enable status for a set of the enable status and as
      the disable status for any other number; eap_server is then always on. */
  lemma WpsStateSetGet(fs: Fs, h: Header, ext: Externals, c: Cmd, v: string)
    requires SetRuleOf(c) == ByWpsState && GetRuleOf(c) == WpsStateRead
    requires h.confFile in fs && h.validNumber(c, Atoi(v))
    requires h.wpsStateEnable != h.wpsStateDisable && h.wpsStateEnable != 0
    ensures var r := SetCommand(fs, h, ext, c, v);
            var status := if Atoi(v) == Enable then Enable else Disable;
            r.resp == Ok
            && GetFromConfig(r.fs, h, ext, c) == Success(Name(WpsState) + "=" + IntToString(status))
            && ConfigValue(r.fs, h.confFile, EapServer) == Some("1")
  {
    var status := if Atoi(v) == Enable then Enable else Disable;
    var r := SetCommand(fs, h, ext, c, v);
    WpsStateSteps(fs, h, ext, c, v);
    WpsStateSteps(r.fs, h, ext, c, v);
    AtoiOfIntToString(Atoi(v));
    WpsUpdateMeans(fs, h.confFile, h, IntToString(Atoi(v)));
    NumberAnswer(Name(WpsState), status);
  }

  /** wps_state is set and read by those rules. */
  lemma WpsStateRules()
    ensures SetRuleOf(WpsState) == ByWpsState && GetRuleOf(WpsState) == WpsStateRead
  {
  }

  /** ap_isolate: any number but the disable one puts the entry in force with the value it
      had, the disable one comments it out so that a get answers the default. */
  lemma IntraBssSetGet(fs: Fs, h: Header, ext: Externals, c: Cmd, v: string, cmd: Command)
    requires SetRuleOf(c) == ByIntraBss && cmd.name == Name(ApIsolate)
    requires h.confFile in fs && h.validNumber(c, Atoi(v))
    ensures var r := SetCommand(fs, h, ext, c, v);
            r.resp == Ok
            && r.fs.Keys == fs.Keys
            && ReadCfg(r.fs, h.confFile, cmd, None, false)
               == if Atoi(v) != Disable then ReadCfg(fs, h.confFile, cmd, None, true)
                  else if cmd.dflt.Some? then Success(cmd.name + "=" + cmd.dflt.value)
                  else Failure(FeatureNotEnabled)
  {
    NamesAreKeys(ApIsolate);
    if Atoi(v) != Disable {
      ReadAfterEnable(fs[h.confFile], cmd.name, cmd.dflt, None);
    } else {
      ReadAfterDisable(fs[h.confFile], cmd.name, cmd.dflt, None);
    }
  }

  /** A command with a case of its own goes to its case, once a number check it makes has
      passed. */
  lemma SpecialSteps(fs: Fs, h: Header, ext: Externals, c: Cmd, v: string)
    requires !SetRuleOf(c).Stored? && (NumberChecked(SetRuleOf(c)) ==> h.validNumber(c, Atoi(v)))
    ensures SetCommand(fs, h, ext, c, v) == SpecialSet(fs, h, ext, c, SetRuleOf(c), v)
  {
  }

  lemma AclNames()
    ensures IsKey(AcceptMacFile.name) && IsKey(DenyMacFile.name) && IsKey(Name(MacaddrAcl))
    ensures AcceptMacFile.name != DenyMacFile.name
    ensures Name(MacaddrAcl) != AcceptMacFile.name && Name(MacaddrAcl) != DenyMacFile.name
  {
    KeyMacaddrAcl();
    assert '=' !in AcceptMacFile.name && '=' !in DenyMacFile.name;
    assert AcceptMacFile.name[0] == 'a' && DenyMacFile.name[0] == 'd' && Name(MacaddrAcl)[0] == 'm';
  }

  /** macaddr_acl: for the allow policy accept_mac_file is put in force, with the value it
      had, and deny_mac_file is commented out; for any other policy the other way round.
      macaddr_acl then holds the policy's number in at most three characters. */
  lemma AclSetMeans(fs: Fs, conf: string, allow: bool, v: string, acl: Command)
    requires conf in fs && acl.name == Name(MacaddrAcl)
    ensures var r := AclSet(fs, conf, allow, v);
            r.resp == Ok && r.fs.Keys == fs.Keys
            && ReadCfg(r.fs, conf, AcceptMacFile, None, false)
               == (if allow then ReadCfg(fs, conf, AcceptMacFile, None, true) else Failure(FeatureNotEnabled))
            && ReadCfg(r.fs, conf, DenyMacFile, None, false)
               == (if allow then Failure(FeatureNotEnabled) else ReadCfg(fs, conf, DenyMacFile, None, true))
            && ReadCfg(r.fs, conf, acl, None, false) == Success(acl.name + "=" + Written(Canonical3, v))
  {
    var a, d := AcceptMacFile.name, DenyMacFile.name;
    var w := Written(Canonical3, v);
    var l1 := ToggleLines(fs[conf], a, allow);
    var l2 := ToggleLines(l1, d, !allow);
    AclNames();
    PlainWritten(Canonical3, v);
    ReadAfterWrite(l2, acl.name, w, false, acl.dflt, None, false);
    WriteFrame(l2, acl.name, a, w, false, None, None, false);
    WriteFrame(l2, acl.name, d, w, false, None, None, false);
    ToggleFrame(l1, d, a, !allow, None, None, false);
    ToggleFrame(fs[conf], a, d, allow, None, None, true);
    if allow {
      ReadAfterEnable(fs[conf], a, None, None);
      ReadAfterDisable(l1, d, None, None);
    } else {
      ReadAfterDisable(fs[conf], a, None, None);
      ReadAfterEnable(l1, d, None, None);
    }
  }

  /** A set of macaddr_acl with a number the header accepts is the ACL update, for the
      allow policy exactly when the number is ACL_ALLOW_LIST. */
  lemma AclSteps(fs: Fs, h: Header, ext: Externals, v: string)
    requires h.validNumber(MacaddrAcl, Atoi(v))
    ensures SetCommand(fs, h, ext, MacaddrAcl, v) == AclSet(fs, h.confFile, Atoi(v) == h.aclAllowList, v)
  {
  }

  lemma PairwiseNames(c: Cmd)
    requires c == WpaPairwise || c == RsnPairwise
    ensures IsKey(Name(c)) && IsKey(Ht80211n.name) && Name(c) != Ht80211n.name
  {
    NamesAreKeys(c);
    assert '=' !in Ht80211n.name;
    assert Name(c)[0] != 'i' && Ht80211n.name[0] == 'i';
  }

  /** wpa_pairwise and rsn_pairwise: ieee80211n is commented out when the cipher is TKIP
      alone and put in force, with the value it had, otherwise; the key then reads back
      the value. */
  lemma PairwiseSetMeans(fs: Fs, conf: string, c: Cmd, v: string, cmd: Command, ht: Command)
    requires conf in fs && (c == WpaPairwise || c == RsnPairwise)
    requires cmd.name == Name(c) && ht.name == Ht80211n.name && OneLine(v)
    ensures var r := PairwiseSet(fs, conf, c, v);
            r.resp == Ok && r.fs.Keys == fs.Keys
            && ReadCfg(r.fs, conf, ht, None, false)
               == (if v != "TKIP" then ReadCfg(fs, conf, ht, None, true) else DisabledRead(ht))
            && ReadCfg(r.fs, conf, cmd, None, false) == Success(cmd.name + "=" + v)
  {
    var l1 := ToggleLines(fs[conf], ht.name, v != "TKIP");
    PairwiseNames(c);
    ReadAfterWrite(l1, cmd.name, v, false, cmd.dflt, None, false);
    WriteFrame(l1, cmd.name, ht.name, v, false, ht.dflt, None, false);
    if v != "TKIP" {
      ReadAfterEnable(fs[conf], ht.name, ht.dflt, None);
    } else {
      ReadAfterDisable(fs[conf], ht.name, ht.dflt, None);
    }
  }

  /** A set of a pairwise cipher the header accepts is the pairwise update; one it refuses
      is ERR_INVALID_PARAM with nothing changed. */
  lemma PairwiseSteps(fs: Fs, h: Header, ext: Externals, c: Cmd, v: string)
    requires c == WpaPairwise || c == RsnPairwise
    ensures SetCommand(fs, h, ext, c, v)
            == if h.validPairwise(v) then PairwiseSet(fs, h.confFile, c, v) else Step(fs, Failure(InvalidParam))
  {
    assert SetRuleOf(c) == ByPairwise;
    SpecialSteps(fs, h, ext, c, v);
  }

  /** After a WEP entry is written: when the security mode read back then is WEP nothing
      more happens; otherwise the entry is commented out, keeping its value for a read
      through comments. The answer is that of the write. */
  lemma WepUnlessWepMeans(fs: Fs, conf: string, c: Cmd, s: Step, cmd: Command)
    requires conf in s.fs && cmd.name == Name(c)
    ensures var r := WepUnlessWep(fs, conf, c, s);
            r.resp == s.resp && r.fs.Keys == s.fs.Keys
            && ReadCfg(r.fs, conf, cmd, None, true) == ReadCfg(s.fs, conf, cmd, None, true)
            && ReadCfg(r.fs, conf, cmd, None, false)
               == (if SecurityRead(s.fs, conf).mode == SecModeWep then ReadCfg(s.fs, conf, cmd, None, false)
                   else DisabledRead(cmd))
  {
    NamesAreKeys(c);
    if SecurityRead(s.fs, conf).mode != SecModeWep {
      ReadAfterDisable(s.fs[conf], cmd.name, cmd.dflt, None);
      ToggleKeepsValue(s.fs[conf], cmd.name, false, cmd.dflt, None);
    }
  }

  lemma WepKeyNames(c: Cmd)
    requires c == WepKey0 || c == WepKey1 || c == WepKey2 || c == WepKey3
    ensures IsKey(Name(c)) && Name(c) != DefaultKeyEntry.name && Name(c) != Wpa.name
  {
    NamesAreKeys(c);
    KeyWepDefaultKey();
    assert Name(c)[1] == 'e' && Wpa.name[1] == 'p';
    assert Name(c)[4] == 'k' && DefaultKeyEntry.name[4] == 'd';
  }

  /** Writing a WEP key leaves the security mode read back as it was: the key is neither
      wep_default_key nor wpa. */
  lemma WepKeyWriteKeepsMode(fs: Fs, conf: string, c: Cmd, stored: string)
    requires c == WepKey0 || c == WepKey1 || c == WepKey2 || c == WepKey3
    requires '\n' !in stored
    ensures SecurityRead(WriteCfg(fs, conf, Name(c), stored, false).fs, conf) == SecurityRead(fs, conf)
  {
    WepKeyNames(c);
    WriteReadFrame(fs, conf, Name(c), stored, false, conf, DefaultKeyEntry, None, false);
    WriteReadFrame(fs, conf, Name(c), stored, false, conf, Wpa, None, false);
  }

  /** wep_key0..3: a valid key without a line feed is written and stays readable through
      comments without its quotes; it is in force exactly as stored when the security mode
      was WEP, and commented out otherwise. */
  lemma WepKeySetMeans(fs: Fs, conf: string, c: Cmd, v: string, cmd: Command)
    requires conf in fs && (c == WepKey0 || c == WepKey1 || c == WepKey2 || c == WepKey3)
    requires cmd.name == Name(c) && WepKey(v).Some? && '\n' !in v
    ensures var r := WepKeySet(fs, conf, c, v);
            r.resp == Ok && r.fs.Keys == fs.Keys
            && ReadWep(r.fs, conf, cmd) == Success(cmd.name + "=" + Unquoted(v))
            && ReadCfg(r.fs, conf, cmd, None, false)
               == (if SecurityRead(fs, conf).mode == SecModeWep then Success(cmd.name + "=" + WepKey(v).value)
                   else DisabledRead(cmd))
  {
    var stored := WepKey(v).value;
    var s := WriteCfg(fs, conf, Name(c), stored, false);
    var r := WepUnlessWep(fs, conf, c, s);
    StoredOneLine(v);
    WepKeyWriteKeepsMode(fs, conf, c, stored);
    WepUnlessWepMeans(fs, conf, c, s, cmd);
    WepKeyNames(c);
    ReadWepAfterWrite(fs, conf, cmd, v);
    assert ReadWep(r.fs, conf, cmd) == ReadWep(s.fs, conf, cmd);
    ReadAfterWrite(fs[conf], cmd.name, stored, false, cmd.dflt, None, false);
  }

  /** A set of wep_key0..3 is the WEP key update of the configuration file. */
  lemma WepKeySteps(fs: Fs, h: Header, ext: Externals, c: Cmd, v: string)
    requires c == WepKey0 || c == WepKey1 || c == WepKey2 || c == WepKey3
    ensures SetCommand(fs, h, ext, c, v) == WepKeySet(fs, h.confFile, c, v)
  {
    assert SetRuleOf(c) == ByWepKey;
    SpecialSteps(fs, h, ext, c, v);
  }

  /** A set of wep_default_key with an index the header accepts writes the index's text,
      then keeps the entry or comments it out. */
  lemma WepIndexSteps(fs: Fs, h: Header, ext: Externals, v: string)
    requires h.validNumber(WepDefaultKey, Atoi(v))
    ensures SetCommand(fs, h, ext, WepDefaultKey, v)
            == WepUnlessWep(fs, h.confFile, WepDefaultKey,
                            WriteCfg(fs, h.confFile, Name(WepDefaultKey), IntToString(Atoi(v)), false))
  {
    assert SetRuleOf(WepDefaultKey) == ByWepIndex;
    SpecialSteps(fs, h, ext, WepDefaultKey, v);
    WepIndexCase(fs, h, ext, v);
  }

  lemma WepIndexCase(fs: Fs, h: Header, ext: Externals, v: string)
    ensures SpecialSet(fs, h, ext, WepDefaultKey, ByWepIndex, v)
            == WepUnlessWep(fs, h.confFile, WepDefaultKey,
                            WriteCfg(fs, h.confFile, Name(WepDefaultKey), IntToString(Atoi(v)), false))
  {
  }

  /** wep_default_key: the index is written in canonical form and stays readable through
      comments; it is in force when the security mode read back after the write is WEP
      (which it is unless `wpa` is in force too), and commented out otherwise. */
  lemma WepIndexSetMeans(fs: Fs, h: Header, ext: Externals, v: string, cmd: Command)
    requires h.validNumber(WepDefaultKey, Atoi(v)) && h.confFile in fs
    requires cmd.name == Name(WepDefaultKey)
    ensures var r := SetCommand(fs, h, ext, WepDefaultKey, v);
            var written := WriteCfg(fs, h.confFile, Name(WepDefaultKey), IntToString(Atoi(v)), false).fs;
            r.resp == Ok && r.fs.Keys == fs.Keys
            && ReadCfg(r.fs, h.confFile, cmd, None, true) == Success(cmd.name + "=" + IntToString(Atoi(v)))
            && ReadCfg(r.fs, h.confFile, cmd, None, false)
               == (if SecurityRead(written, h.confFile).mode == SecModeWep
                   then Success(cmd.name + "=" + IntToString(Atoi(v))) else DisabledRead(cmd))
  {
    var conf, t := h.confFile, IntToString(Atoi(v));
    var c := WepDefaultKey;
    var s := WriteCfg(fs, conf, Name(c), t, false);
    WepIndexSteps(fs, h, ext, v);
    NamesAreKeys(c);
    NumberOneLine(Atoi(v));
    ReadAfterWrite(fs[conf], cmd.name, t, false, cmd.dflt, None, false);
    ReadAfterWrite(fs[conf], cmd.name, t, false, cmd.dflt, None, true);
    WepUnlessWepMeans(fs, conf, c, s, cmd);
  }

  /** The request "key=value" reaches the command the key names with exactly the value;
      a command that needs a value refuses an empty one. */
  lemma HandleSetByKey(fs: Fs, h: Header, ext: Externals, key: string, v: string)
    requires '=' !in key && CmdNum(key).Some?
    ensures var c := CmdTable[CmdNum(key).value];
            HandleSet(fs, h, ext, key + "=" + v)
            == if NeedsValue(c) && v == [] then Step(fs, Failure(InvalidArg))
               else SetCommand(fs, h, ext, c, v)
  {
    var req := key + "=" + v;
    KeyThenValue(key, v);
    var rest := "=" + v;
    assert rest[1..] == v;
    assert (rest == [] || rest[0] != '=' || |rest| < 2) <==> v == [];
    HandleSetFound(fs, h, ext, req, CmdNum(key).value);
  }

  /** In `key=value`, the key finds its command, and what follows the command's name is
      '=' and the value. */
  lemma KeyThenValue(key: string, v: string)
    requires '=' !in key && CmdNum(key).Some?
    ensures CmdNum(key + "=" + v) == CmdNum(key)
    ensures (key + "=" + v)[|Name(CmdTable[CmdNum(key).value])|..] == "=" + v
  {
    var req := key + "=" + v;
    assert req == key + ("=" + v);
    CmdNumByKey(key, "=" + v);
    CmdNumNamesKey(key);
    assert req[|key|..] == "=" + v;
  }

  /** The set handler once the command is found: the text after the name decides. */
  lemma HandleSetFound(fs: Fs, h: Header, ext: Externals, req: string, i: nat)
    requires CmdNum(req) == Some(i)
    ensures var c := CmdTable[i];
            var rest := req[|Name(c)|..];
            HandleSet(fs, h, ext, req)
            == if NeedsValue(c) && (rest == [] || rest[0] != '=' || |rest| < 2) then Step(fs, Failure(InvalidArg))
               else SetCommand(fs, h, ext, c, if rest == [] then [] else rest[1..])
  {
  }

  /** The request "key" with no value: refused unless the command needs none. */
  lemma HandleSetBare(fs: Fs, h: Header, ext: Externals, key: string)
    requires '=' !in key && CmdNum(key).Some?
    ensures var c := CmdTable[CmdNum(key).value];
            HandleSet(fs, h, ext, key)
            == if NeedsValue(c) then Step(fs, Failure(InvalidArg)) else SetCommand(fs, h, ext, c, [])
  {
    CmdNumNamesKey(key);
  }

  /** A get answers for the key alone, whatever follows an '=' after it. */
  lemma HandleGetByKey(fs: Fs, h: Header, ext: Externals, key: string, rest: string)
    requires '=' !in key
    requires rest == [] || rest[0] == '='
    ensures HandleGet(fs, h, ext, key + rest) == HandleGet(fs, h, ext, key)
  {
    CmdNumByKey(key, rest);
  }

  /** The text of "get " followed by a request: no blank to skip, the get verb and, after
      it, the request with its blanks. */
  lemma GetVerb(req: string)
    ensures var g := "get " + req;
            SkipBlanks(g) == g && HasVerb(g, "get") && SkipBlanks(g[3..]) == SkipBlanks(req)
  {
    var g := "get " + req;
    assert g[0] == 'g';
    assert g[..3] == "get" && g[3] == ' ' && g[3..][1..] == req;
  }

  /** The text of "set " followed by a request: no blank to skip, the set verb and not the
      get verb and, after it, the request with its blanks. */
  lemma SetVerb(req: string)
    ensures var s := "set " + req;
            SkipBlanks(s) == s && HasVerb(s, "set") && !HasVerb(s, "get")
            && SkipBlanks(s[3..]) == SkipBlanks(req)
  {
    var s := "set " + req;
    assert s[0] == 's' && s[..3][0] == 's';
    assert s[..3] == "set" && s[3] == ' ' && s[3..][1..] == req;
  }

  /** "get " followed by a request is taken apart as a get of it. */
  lemma ExecGet(fs: Fs, h: Header, ext: Externals, req: string)
    ensures ExecCmd(fs, h, ext, "get " + req) == Step(fs, HandleGet(fs, h, ext, SkipBlanks(req)))
  {
    GetVerb(req);
  }

  /** "set " followed by a request is taken apart as a set of it. */
  lemma ExecSet(fs: Fs, h: Header, ext: Externals, req: string)
    ensures ExecCmd(fs, h, ext, "set " + req) == HandleSet(fs, h, ext, SkipBlanks(req))
  {
    SetVerb(req);
  }

  /** The request "set key=value" is the set of the command the key names, with the value. */
  lemma SetRequest(fs: Fs, h: Header, ext: Externals, key: string, v: string)
    requires '=' !in key && key != [] && !IsBlank(key[0]) && CmdNum(key).Some? && v != []
    ensures ExecCmd(fs, h, ext, "set " + key + "=" + v)
            == SetCommand(fs, h, ext, CmdTable[CmdNum(key).value], v)
  {
    assert "set " + key + "=" + v == "set " + (key + "=" + v);
    ExecSet(fs, h, ext, key + "=" + v);
    KeyNotBlank(key, v);
    HandleSetByKey(fs, h, ext, key, v);
  }

  /** A request that starts with a key has no leading blanks to skip. */
  lemma KeyNotBlank(key: string, v: string)
    requires key != [] && !IsBlank(key[0])
    ensures SkipBlanks(key + "=" + v) == key + "=" + v
  {
    assert (key + "=" + v)[0] == key[0];
  }

  /** The request "get key" is the get of the command the key names. */
  lemma GetRequest(fs: Fs, h: Header, ext: Externals, key: string)
    requires '=' !in key && key != [] && !IsBlank(key[0]) && CmdNum(key).Some?
    ensures ExecCmd(fs, h, ext, "get " + key)
            == Step(fs, GetFromConfig(fs, h, ext, CmdTable[CmdNum(key).value]))
  {
    ExecGet(fs, h, ext, key);
    assert SkipBlanks(key) == key;
  }

  /** The whole exchange for a command kept in the configuration file: the request
      "set key=value" and then "get key" answer the key and the value as written. */
  lemma SetThenGet(fs: Fs, h: Header, ext: Externals, key: string, v: string)
    requires '=' !in key && key != [] && !IsBlank(key[0]) && CmdNum(key).Some?
    requires var c := CmdTable[CmdNum(key).value];
             SetRuleOf(c).Stored? && SetRuleOf(c).iniEntry.None? && GetRuleOf(c).ConfRead?
             && Passes(h, c, SetRuleOf(c).check, v) && ReadsBack(SetRuleOf(c).form, v)
    requires h.confFile in fs && v != []
    ensures var c := CmdTable[CmdNum(key).value];
            var r := ExecCmd(fs, h, ext, "set " + key + "=" + v);
            r.resp == Ok
            && ExecCmd(r.fs, h, ext, "get " + key).resp == Success(key + "=" + Written(SetRuleOf(c).form, v))
  {
    var c := CmdTable[CmdNum(key).value];
    SetRequest(fs, h, ext, key, v);
    var r := SetCommand(fs, h, ext, c, v);
    ConfRoundTrip(fs, h, ext, c, v);
    CmdNumNamesKey(key);
    GetRequest(r.fs, h, ext, key);
  }
}
