/** The command tables of the engine: the public command names with their default
    values (cmd_list), the names of the entries it keeps under other keys (qsap_str), and
    the values it takes from qsap_api.h, which is not part of this model and so enters as
    a `Header` parameter. */
module Tables {
  import opened Protocol
  import opened LineStore
  import opened Store

  /** The commands, in table order. */
  datatype Cmd =
    | Ssid | IgnoreBroadcastSsid | Channel | BeaconInt | DtimPeriod | HwMode | AuthAlgs
    | SecurityMode | WepKey0 | WepKey1 | WepKey2 | WepKey3 | WepDefaultKey | WpaPassphrase
    | WpaPairwise | RsnPairwise | MacAddress | ResetAp | MacaddrAcl | AddToAllowList
    | AddToDenyList | RemoveFromAllowList | RemoveFromDenyList | AllowList | DenyList
    | Commit | EnableSoftap | DisassocSta | ResetToDefault | ProtectionFlag | DataRate
    | StaMacList | TxPower | SdkVersion | WmmEnabled | WpsState | ConfigMethods | Uuid
    | DeviceName | Manufacturer | ModelName | ModelNumber | SerialNumber | DeviceType
    | OsVersion | FriendlyName | ManufacturerUrl | ModelDescription | ModelUrl | Upc
    | FragmThreshold | RtsThreshold | WpaGroupRekey | CountryCode | ApIsolate | Ieee80211d
    | Apstat | AutoShutOffTime | EnergyDetectThreshold | BasicRates | RequireHt | Ieee80211n

  /** cmd_list in order: the index of a command is its number. The table is written in
      parts of eight so that an entry is found without unfolding all of it. */
  const CmdTable: seq<Cmd> := CmdPart0 + CmdPart1 + CmdPart2 + CmdPart3 + CmdPart4
                              + CmdPart5 + CmdPart6 + CmdPart7

  const CmdPart0: seq<Cmd> :=
    [Ssid, IgnoreBroadcastSsid, Channel, BeaconInt, DtimPeriod, HwMode, AuthAlgs, SecurityMode]
  const CmdPart1: seq<Cmd> :=
    [WepKey0, WepKey1, WepKey2, WepKey3, WepDefaultKey, WpaPassphrase, WpaPairwise, RsnPairwise]
  const CmdPart2: seq<Cmd> :=
    [MacAddress, ResetAp, MacaddrAcl, AddToAllowList, AddToDenyList, RemoveFromAllowList,
     RemoveFromDenyList, AllowList]
  const CmdPart3: seq<Cmd> :=
    [DenyList, Commit, EnableSoftap, DisassocSta, ResetToDefault, ProtectionFlag, DataRate, StaMacList]
  const CmdPart4: seq<Cmd> :=
    [TxPower, SdkVersion, WmmEnabled, WpsState, ConfigMethods, Uuid, DeviceName, Manufacturer]
  const CmdPart5: seq<Cmd> :=
    [ModelName, ModelNumber, SerialNumber, DeviceType, OsVersion, FriendlyName, ManufacturerUrl,
     ModelDescription]
  const CmdPart6: seq<Cmd> :=
    [ModelUrl, Upc, FragmThreshold, RtsThreshold, WpaGroupRekey, CountryCode, ApIsolate, Ieee80211d]
  const CmdPart7: seq<Cmd> :=
    [Apstat, AutoShutOffTime, EnergyDetectThreshold, BasicRates, RequireHt, Ieee80211n]

  function Name(c: Cmd): string {
    match c
    case Ssid => "ssid"
    case IgnoreBroadcastSsid => "ignore_broadcast_ssid"
    case Channel => "channel"
    case BeaconInt => "beacon_int"
    case DtimPeriod => "dtim_period"
    case HwMode => "hw_mode"
    case AuthAlgs => "auth_algs"
    case SecurityMode => "security_mode"
    case WepKey0 => "wep_key0"
    case WepKey1 => "wep_key1"
    case WepKey2 => "wep_key2"
    case WepKey3 => "wep_key3"
    case WepDefaultKey => "wep_default_key"
    case WpaPassphrase => "wpa_passphrase"
    case WpaPairwise => "wpa_pairwise"
    case RsnPairwise => "rsn_pairwise"
    case MacAddress => "mac_address"
    case ResetAp => "reset_ap"
    case MacaddrAcl => "macaddr_acl"
    case AddToAllowList => "add_to_allow_list"
    case AddToDenyList => "add_to_deny_list"
    case RemoveFromAllowList => "remove_from_allow_list"
    case RemoveFromDenyList => "remove_from_deny_list"
    case AllowList => "allow_list"
    case DenyList => "deny_list"
    case Commit => "commit"
    case EnableSoftap => "enable_softap"
    case DisassocSta => "disassoc_sta"
    case ResetToDefault => "reset_to_default"
    case ProtectionFlag => "protection_flag"
    case DataRate => "data_rate"
    case StaMacList => "sta_mac_list"
    case TxPower => "tx_power"
    case SdkVersion => "sdk_version"
    case WmmEnabled => "wmm_enabled"
    case WpsState => "wps_state"
    case ConfigMethods => "config_methods"
    case Uuid => "uuid"
    case DeviceName => "device_name"
    case Manufacturer => "manufacturer"
    case ModelName => "model_name"
    case ModelNumber => "model_number"
    case SerialNumber => "serial_number"
    case DeviceType => "device_type"
    case OsVersion => "os_version"
    case FriendlyName => "friendly_name"
    case ManufacturerUrl => "manufacturer_url"
    case ModelDescription => "model_description"
    case ModelUrl => "model_url"
    case Upc => "upc"
    case FragmThreshold => "fragm_threshold"
    case RtsThreshold => "rts_threshold"
    case WpaGroupRekey => "wpa_group_rekey"
    case CountryCode => "country_code"
    case ApIsolate => "ap_isolate"
    case Ieee80211d => "ieee80211d"
    case Apstat => "apstat"
    case AutoShutOffTime => "auto_shut_off_time"
    case EnergyDetectThreshold => "energy_detect_threshold"
    case BasicRates => "basic_rates"
    case RequireHt => "require_ht"
    case Ieee80211n => "ieee80211n"
  }

  /** The default value of a command; the SDK version string is a header value. */
  function Default(c: Cmd, sdkVersion: string): Option<string> {
    match c
    case Ssid => Some("QualcommSoftAP")
    case IgnoreBroadcastSsid => Some("0")
    case Channel => Some("1")
    case BeaconInt => Some("100")
    case DtimPeriod => Some("2")
    case HwMode => Some("n")
    case AuthAlgs => Some("3")
    case SecurityMode => Some("0")
    case MacAddress => Some("00deadbeef04")
    case MacaddrAcl => Some("0")
    case AllowList => Some("")
    case DenyList => Some("")
    case ProtectionFlag => Some("1")
    case DataRate => Some("0")
    case TxPower => Some("27")
    case SdkVersion => Some(sdkVersion)
    case WmmEnabled => Some("0")
    case WpsState => Some("0")
    case EnergyDetectThreshold => Some("128")
    case Ieee80211n => Some("1")
    case _ => None
  }

  function CommandOf(c: Cmd, sdkVersion: string): Command {
    Command(Name(c), Default(c, sdkVersion))
  }

  // qsap_str: entries kept under names of their own.
  const Wpa := Command("wpa", None)
  const AcceptMacFile := Command("accept_mac_file", None)
  const DenyMacFile := Command("deny_mac_file", None)
  const MacInIni := Command("gAPMacAddr", Some("00deadbeef04"))
  const ProtFlagInIni := Command("gEnableApProt", Some("1"))
  const DataRateInIni := Command("gFixedRate", Some("0"))
  const TxPowerInIni := Command("gTxPowerCap", Some("27"))
  const FragThresholdInIni := Command("gFragmentationThreshold", Some("2346"))
  const RtsThresholdInIni := Command("RTSThreshold", Some("2347"))
  const CountryCodeInIni := Command("gAPCntryCode", Some("USI"))
  const IntraBssFwdInIni := Command("gDisableIntraBssFwd", Some("0"))
  const WmmInIni := Command("WmmIsEnabled", Some("0"))
  const Dot11dInIni := Command("g11dSupportEnabled", Some("1"))
  const Ht80211n := Command("ieee80211n", None)
  const CtrlInterface := Command("ctrl_interface", None)
  const Interface := Command("interface", None)
  const EapServer := Command("eap_server", None)
  const AutoShutOffInIni := Command("gAPAutoShutOff", Some("0"))
  const EnergyDetectInIni := Command("gEnablePhyAgcListenMode", Some("128"))

  /** The entries kept in the ini file. */
  const IniEntries: seq<Command> := [MacInIni, ProtFlagInIni, DataRateInIni, TxPowerInIni,
    FragThresholdInIni, RtsThresholdInIni, CountryCodeInIni, IntraBssFwdInIni, WmmInIni,
    Dot11dInIni, AutoShutOffInIni, EnergyDetectInIni]

  /** The ini names can be written and read as keys of the ini file. */
  lemma IniNamesAreKeys(c: Command)
    requires c in IniEntries
    ensures IsKey(c.name) && EndFree(c.name)
  {
    if c == MacInIni || c == ProtFlagInIni || c == DataRateInIni {
      IniNamesAreKeysIn0(c);
    } else if c == TxPowerInIni || c == FragThresholdInIni || c == RtsThresholdInIni {
      IniNamesAreKeysIn1(c);
    } else if c == CountryCodeInIni || c == IntraBssFwdInIni || c == WmmInIni {
      IniNamesAreKeysIn2(c);
    } else {
      IniNamesAreKeysIn3(c);
    }
  }

  lemma IniNamesAreKeysIn0(c: Command)
    requires c == MacInIni || c == ProtFlagInIni || c == DataRateInIni
    ensures IsKey(c.name) && EndFree(c.name)
  {
    if c == MacInIni {
      KeyMacInIni();
    } else if c == ProtFlagInIni {
      KeyProtFlagInIni();
    } else {
      KeyDataRateInIni();
    }
  }

  lemma IniNamesAreKeysIn1(c: Command)
    requires c == TxPowerInIni || c == FragThresholdInIni || c == RtsThresholdInIni
    ensures IsKey(c.name) && EndFree(c.name)
  {
    if c == TxPowerInIni {
      KeyTxPowerInIni();
    } else if c == FragThresholdInIni {
      KeyFragThresholdInIni();
    } else {
      KeyRtsThresholdInIni();
    }
  }

  lemma IniNamesAreKeysIn2(c: Command)
    requires c == CountryCodeInIni || c == IntraBssFwdInIni || c == WmmInIni
    ensures IsKey(c.name) && EndFree(c.name)
  {
    if c == CountryCodeInIni {
      KeyCountryCodeInIni();
    } else if c == IntraBssFwdInIni {
      KeyIntraBssFwdInIni();
    } else {
      KeyWmmInIni();
    }
  }

  lemma IniNamesAreKeysIn3(c: Command)
    requires c == Dot11dInIni || c == AutoShutOffInIni || c == EnergyDetectInIni
    ensures IsKey(c.name) && EndFree(c.name)
  {
    if c == Dot11dInIni {
      KeyDot11dInIni();
    } else if c == AutoShutOffInIni {
      KeyAutoShutOffInIni();
    } else {
      KeyEnergyDetectInIni();
    }
  }

  /** The command names can be written and read as keys of either file. */
  lemma NamesAreKeys(c: Cmd)
    ensures IsKey(Name(c)) && EndFree(Name(c))
  {
    if c.Ssid? || c.IgnoreBroadcastSsid? || c.Channel? {
      NamesAreKeysIn0(c);
    } else if c.BeaconInt? || c.DtimPeriod? || c.HwMode? {
      NamesAreKeysIn1(c);
    } else if c.AuthAlgs? || c.SecurityMode? || c.WepKey0? {
      NamesAreKeysIn2(c);
    } else if c.WepKey1? || c.WepKey2? || c.WepKey3? {
      NamesAreKeysIn3(c);
    } else if c.WepDefaultKey? || c.WpaPassphrase? || c.WpaPairwise? {
      NamesAreKeysIn4(c);
    } else if c.RsnPairwise? || c.MacAddress? || c.ResetAp? {
      NamesAreKeysIn5(c);
    } else if c.MacaddrAcl? || c.AddToAllowList? || c.AddToDenyList? {
      NamesAreKeysIn6(c);
    } else if c.RemoveFromAllowList? || c.RemoveFromDenyList? || c.AllowList? {
      NamesAreKeysIn7(c);
    } else if c.DenyList? || c.Commit? || c.EnableSoftap? {
      NamesAreKeysIn8(c);
    } else if c.DisassocSta? || c.ResetToDefault? || c.ProtectionFlag? {
      NamesAreKeysIn9(c);
    } else if c.DataRate? || c.StaMacList? || c.TxPower? {
      NamesAreKeysIn10(c);
    } else if c.SdkVersion? || c.WmmEnabled? || c.WpsState? {
      NamesAreKeysIn11(c);
    } else if c.ConfigMethods? || c.Uuid? || c.DeviceName? {
      NamesAreKeysIn12(c);
    } else if c.Manufacturer? || c.ModelName? || c.ModelNumber? {
      NamesAreKeysIn13(c);
    } else if c.SerialNumber? || c.DeviceType? || c.OsVersion? {
      NamesAreKeysIn14(c);
    } else if c.FriendlyName? || c.ManufacturerUrl? || c.ModelDescription? {
      NamesAreKeysIn15(c);
    } else if c.ModelUrl? || c.Upc? || c.FragmThreshold? {
      NamesAreKeysIn16(c);
    } else if c.RtsThreshold? || c.WpaGroupRekey? || c.CountryCode? {
      NamesAreKeysIn17(c);
    } else if c.ApIsolate? || c.Ieee80211d? || c.Apstat? {
      NamesAreKeysIn18(c);
    } else if c.AutoShutOffTime? || c.EnergyDetectThreshold? || c.BasicRates? {
      NamesAreKeysIn19(c);
    } else {
      NamesAreKeysIn20(c);
    }
  }

  lemma NamesAreKeysIn0(c: Cmd)
    requires c.Ssid? || c.IgnoreBroadcastSsid? || c.Channel?
    ensures IsKey(Name(c)) && EndFree(Name(c))
  {
    if c.Ssid? {
      KeySsid();
    } else if c.IgnoreBroadcastSsid? {
      KeyIgnoreBroadcastSsid();
    } else {
      KeyChannel();
    }
  }

  lemma NamesAreKeysIn1(c: Cmd)
    requires c.BeaconInt? || c.DtimPeriod? || c.HwMode?
    ensures IsKey(Name(c)) && EndFree(Name(c))
  {
    if c.BeaconInt? {
      KeyBeaconInt();
    } else if c.DtimPeriod? {
      KeyDtimPeriod();
    } else {
      KeyHwMode();
    }
  }

  lemma NamesAreKeysIn2(c: Cmd)
    requires c.AuthAlgs? || c.SecurityMode? || c.WepKey0?
    ensures IsKey(Name(c)) && EndFree(Name(c))
  {
    if c.AuthAlgs? {
      KeyAuthAlgs();
    } else if c.SecurityMode? {
      KeySecurityMode();
    } else {
      KeyWepKey0();
    }
  }

  lemma NamesAreKeysIn3(c: Cmd)
    requires c.WepKey1? || c.WepKey2? || c.WepKey3?
    ensures IsKey(Name(c)) && EndFree(Name(c))
  {
    if c.WepKey1? {
      KeyWepKey1();
    } else if c.WepKey2? {
      KeyWepKey2();
    } else {
      KeyWepKey3();
    }
  }

  lemma NamesAreKeysIn4(c: Cmd)
    requires c.WepDefaultKey? || c.WpaPassphrase? || c.WpaPairwise?
    ensures IsKey(Name(c)) && EndFree(Name(c))
  {
    if c.WepDefaultKey? {
      KeyWepDefaultKey();
    } else if c.WpaPassphrase? {
      KeyWpaPassphrase();
    } else {
      KeyWpaPairwise();
    }
  }

  lemma NamesAreKeysIn5(c: Cmd)
    requires c.RsnPairwise? || c.MacAddress? || c.ResetAp?
    ensures IsKey(Name(c)) && EndFree(Name(c))
  {
    if c.RsnPairwise? {
      KeyRsnPairwise();
    } else if c.MacAddress? {
      KeyMacAddress();
    } else {
      KeyResetAp();
    }
  }

  lemma NamesAreKeysIn6(c: Cmd)
    requires c.MacaddrAcl? || c.AddToAllowList? || c.AddToDenyList?
    ensures IsKey(Name(c)) && EndFree(Name(c))
  {
    if c.MacaddrAcl? {
      KeyMacaddrAcl();
    } else if c.AddToAllowList? {
      KeyAddToAllowList();
    } else {
      KeyAddToDenyList();
    }
  }

  lemma NamesAreKeysIn7(c: Cmd)
    requires c.RemoveFromAllowList? || c.RemoveFromDenyList? || c.AllowList?
    ensures IsKey(Name(c)) && EndFree(Name(c))
  {
    if c.RemoveFromAllowList? {
      KeyRemoveFromAllowList();
    } else if c.RemoveFromDenyList? {
      KeyRemoveFromDenyList();
    } else {
      KeyAllowList();
    }
  }

  lemma NamesAreKeysIn8(c: Cmd)
    requires c.DenyList? || c.Commit? || c.EnableSoftap?
    ensures IsKey(Name(c)) && EndFree(Name(c))
  {
    if c.DenyList? {
      KeyDenyList();
    } else if c.Commit? {
      KeyCommit();
    } else {
      KeyEnableSoftap();
    }
  }

  lemma NamesAreKeysIn9(c: Cmd)
    requires c.DisassocSta? || c.ResetToDefault? || c.ProtectionFlag?
    ensures IsKey(Name(c)) && EndFree(Name(c))
  {
    if c.DisassocSta? {
      KeyDisassocSta();
    } else if c.ResetToDefault? {
      KeyResetToDefault();
    } else {
      KeyProtectionFlag();
    }
  }

  lemma NamesAreKeysIn10(c: Cmd)
    requires c.DataRate? || c.StaMacList? || c.TxPower?
    ensures IsKey(Name(c)) && EndFree(Name(c))
  {
    if c.DataRate? {
      KeyDataRate();
    } else if c.StaMacList? {
      KeyStaMacList();
    } else {
      KeyTxPower();
    }
  }

  lemma NamesAreKeysIn11(c: Cmd)
    requires c.SdkVersion? || c.WmmEnabled? || c.WpsState?
    ensures IsKey(Name(c)) && EndFree(Name(c))
  {
    if c.SdkVersion? {
      KeySdkVersion();
    } else if c.WmmEnabled? {
      KeyWmmEnabled();
    } else {
      KeyWpsState();
    }
  }

  lemma NamesAreKeysIn12(c: Cmd)
    requires c.ConfigMethods? || c.Uuid? || c.DeviceName?
    ensures IsKey(Name(c)) && EndFree(Name(c))
  {
    if c.ConfigMethods? {
      KeyConfigMethods();
    } else if c.Uuid? {
      KeyUuid();
    } else {
      KeyDeviceName();
    }
  }

  lemma NamesAreKeysIn13(c: Cmd)
    requires c.Manufacturer? || c.ModelName? || c.ModelNumber?
    ensures IsKey(Name(c)) && EndFree(Name(c))
  {
    if c.Manufacturer? {
      KeyManufacturer();
    } else if c.ModelName? {
      KeyModelName();
    } else {
      KeyModelNumber();
    }
  }

  lemma NamesAreKeysIn14(c: Cmd)
    requires c.SerialNumber? || c.DeviceType? || c.OsVersion?
    ensures IsKey(Name(c)) && EndFree(Name(c))
  {
    if c.SerialNumber? {
      KeySerialNumber();
    } else if c.DeviceType? {
      KeyDeviceType();
    } else {
      KeyOsVersion();
    }
  }

  lemma NamesAreKeysIn15(c: Cmd)
    requires c.FriendlyName? || c.ManufacturerUrl? || c.ModelDescription?
    ensures IsKey(Name(c)) && EndFree(Name(c))
  {
    if c.FriendlyName? {
      KeyFriendlyName();
    } else if c.ManufacturerUrl? {
      KeyManufacturerUrl();
    } else {
      KeyModelDescription();
    }
  }

  lemma NamesAreKeysIn16(c: Cmd)
    requires c.ModelUrl? || c.Upc? || c.FragmThreshold?
    ensures IsKey(Name(c)) && EndFree(Name(c))
  {
    if c.ModelUrl? {
      KeyModelUrl();
    } else if c.Upc? {
      KeyUpc();
    } else {
      KeyFragmThreshold();
    }
  }

  lemma NamesAreKeysIn17(c: Cmd)
    requires c.RtsThreshold? || c.WpaGroupRekey? || c.CountryCode?
    ensures IsKey(Name(c)) && EndFree(Name(c))
  {
    if c.RtsThreshold? {
      KeyRtsThreshold();
    } else if c.WpaGroupRekey? {
      KeyWpaGroupRekey();
    } else {
      KeyCountryCode();
    }
  }

  lemma NamesAreKeysIn18(c: Cmd)
    requires c.ApIsolate? || c.Ieee80211d? || c.Apstat?
    ensures IsKey(Name(c)) && EndFree(Name(c))
  {
    if c.ApIsolate? {
      KeyApIsolate();
    } else if c.Ieee80211d? {
      KeyIeee80211d();
    } else {
      KeyApstat();
    }
  }

  lemma NamesAreKeysIn19(c: Cmd)
    requires c.AutoShutOffTime? || c.EnergyDetectThreshold? || c.BasicRates?
    ensures IsKey(Name(c)) && EndFree(Name(c))
  {
    if c.AutoShutOffTime? {
      KeyAutoShutOffTime();
    } else if c.EnergyDetectThreshold? {
      KeyEnergyDetectThreshold();
    } else {
      KeyBasicRates();
    }
  }

  lemma NamesAreKeysIn20(c: Cmd)
    requires c.RequireHt? || c.Ieee80211n?
    ensures IsKey(Name(c)) && EndFree(Name(c))
  {
    if c.RequireHt? {
      KeyRequireHt();
    } else {
      KeyIeee80211n();
    }
  }

  /** The WPS entries from uuid to upc, whose order the table keeps fixed. */
  const WpsFields: seq<Cmd> := [
    Uuid, DeviceName, Manufacturer, ModelName, ModelNumber, SerialNumber, DeviceType,
    OsVersion, FriendlyName, ManufacturerUrl, ModelDescription, ModelUrl, Upc
  ]


  // Each name, checked on its own text: a key of either file.

  lemma KeySsid()
    ensures Name(Ssid) == "ssid" && IsKey("ssid") && EndFree("ssid")
  {
    assert '=' !in "ssid";
  }

  lemma KeyIgnoreBroadcastSsid()
    ensures Name(IgnoreBroadcastSsid) == "ignore_broadcast_ssid" && IsKey("ignore_broadcast_ssid") && EndFree("ignore_broadcast_ssid")
  {
    var s := "ignore_broadcast_ssid";
    assert forall i | 0 <= i < 8 :: s[i] != '=';
    assert forall i | 8 <= i < 16 :: s[i] != '=';
    assert forall i | 16 <= i < |s| :: s[i] != '=';
  }

  lemma KeyChannel()
    ensures Name(Channel) == "channel" && IsKey("channel") && EndFree("channel")
  {
    assert '=' !in "channel";
  }

  lemma KeyBeaconInt()
    ensures Name(BeaconInt) == "beacon_int" && IsKey("beacon_int") && EndFree("beacon_int")
  {
    assert '=' !in "beacon_int";
  }

  lemma KeyDtimPeriod()
    ensures Name(DtimPeriod) == "dtim_period" && IsKey("dtim_period") && EndFree("dtim_period")
  {
    assert '=' !in "dtim_period";
  }

  lemma KeyHwMode()
    ensures Name(HwMode) == "hw_mode" && IsKey("hw_mode") && EndFree("hw_mode")
  {
    assert '=' !in "hw_mode";
  }

  lemma KeyAuthAlgs()
    ensures Name(AuthAlgs) == "auth_algs" && IsKey("auth_algs") && EndFree("auth_algs")
  {
    assert '=' !in "auth_algs";
  }

  lemma KeySecurityMode()
    ensures Name(SecurityMode) == "security_mode" && IsKey("security_mode") && EndFree("security_mode")
  {
    assert '=' !in "security_mode";
  }

  lemma KeyWepKey0()
    ensures Name(WepKey0) == "wep_key0" && IsKey("wep_key0") && EndFree("wep_key0")
  {
    assert '=' !in "wep_key0";
  }

  lemma KeyWepKey1()
    ensures Name(WepKey1) == "wep_key1" && IsKey("wep_key1") && EndFree("wep_key1")
  {
    assert '=' !in "wep_key1";
  }

  lemma KeyWepKey2()
    ensures Name(WepKey2) == "wep_key2" && IsKey("wep_key2") && EndFree("wep_key2")
  {
    assert '=' !in "wep_key2";
  }

  lemma KeyWepKey3()
    ensures Name(WepKey3) == "wep_key3" && IsKey("wep_key3") && EndFree("wep_key3")
  {
    assert '=' !in "wep_key3";
  }

  lemma KeyWepDefaultKey()
    ensures Name(WepDefaultKey) == "wep_default_key" && IsKey("wep_default_key") && EndFree("wep_default_key")
  {
    var s := "wep_default_key";
    assert forall i | 0 <= i < 8 :: s[i] != '=';
    assert forall i | 8 <= i < |s| :: s[i] != '=';
  }

  lemma KeyWpaPassphrase()
    ensures Name(WpaPassphrase) == "wpa_passphrase" && IsKey("wpa_passphrase") && EndFree("wpa_passphrase")
  {
    var s := "wpa_passphrase";
    assert forall i | 0 <= i < 8 :: s[i] != '=';
    assert forall i | 8 <= i < |s| :: s[i] != '=';
  }

  lemma KeyWpaPairwise()
    ensures Name(WpaPairwise) == "wpa_pairwise" && IsKey("wpa_pairwise") && EndFree("wpa_pairwise")
  {
    assert '=' !in "wpa_pairwise";
  }

  lemma KeyRsnPairwise()
    ensures Name(RsnPairwise) == "rsn_pairwise" && IsKey("rsn_pairwise") && EndFree("rsn_pairwise")
  {
    assert '=' !in "rsn_pairwise";
  }

  lemma KeyMacAddress()
    ensures Name(MacAddress) == "mac_address" && IsKey("mac_address") && EndFree("mac_address")
  {
    assert '=' !in "mac_address";
  }

  lemma KeyResetAp()
    ensures Name(ResetAp) == "reset_ap" && IsKey("reset_ap") && EndFree("reset_ap")
  {
    assert '=' !in "reset_ap";
  }

  lemma KeyMacaddrAcl()
    ensures Name(MacaddrAcl) == "macaddr_acl" && IsKey("macaddr_acl") && EndFree("macaddr_acl")
  {
    assert '=' !in "macaddr_acl";
  }

  lemma KeyAddToAllowList()
    ensures Name(AddToAllowList) == "add_to_allow_list" && IsKey("add_to_allow_list") && EndFree("add_to_allow_list")
  {
    var s := "add_to_allow_list";
    assert forall i | 0 <= i < 8 :: s[i] != '=';
    assert forall i | 8 <= i < 16 :: s[i] != '=';
    assert forall i | 16 <= i < |s| :: s[i] != '=';
  }

  lemma KeyAddToDenyList()
    ensures Name(AddToDenyList) == "add_to_deny_list" && IsKey("add_to_deny_list") && EndFree("add_to_deny_list")
  {
    var s := "add_to_deny_list";
    assert forall i | 0 <= i < 8 :: s[i] != '=';
    assert forall i | 8 <= i < |s| :: s[i] != '=';
  }

  lemma KeyRemoveFromAllowList()
    ensures Name(RemoveFromAllowList) == "remove_from_allow_list" && IsKey("remove_from_allow_list") && EndFree("remove_from_allow_list")
  {
    var s := "remove_from_allow_list";
    assert forall i | 0 <= i < 8 :: s[i] != '=';
    assert forall i | 8 <= i < 16 :: s[i] != '=';
    assert forall i | 16 <= i < |s| :: s[i] != '=';
  }

  lemma KeyRemoveFromDenyList()
    ensures Name(RemoveFromDenyList) == "remove_from_deny_list" && IsKey("remove_from_deny_list") && EndFree("remove_from_deny_list")
  {
    var s := "remove_from_deny_list";
    assert forall i | 0 <= i < 8 :: s[i] != '=';
    assert forall i | 8 <= i < 16 :: s[i] != '=';
    assert forall i | 16 <= i < |s| :: s[i] != '=';
  }

  lemma KeyAllowList()
    ensures Name(AllowList) == "allow_list" && IsKey("allow_list") && EndFree("allow_list")
  {
    assert '=' !in "allow_list";
  }

  lemma KeyDenyList()
    ensures Name(DenyList) == "deny_list" && IsKey("deny_list") && EndFree("deny_list")
  {
    assert '=' !in "deny_list";
  }

  lemma KeyCommit()
    ensures Name(Commit) == "commit" && IsKey("commit") && EndFree("commit")
  {
    assert '=' !in "commit";
  }

  lemma KeyEnableSoftap()
    ensures Name(EnableSoftap) == "enable_softap" && IsKey("enable_softap") && EndFree("enable_softap")
  {
    assert '=' !in "enable_softap";
  }

  lemma KeyDisassocSta()
    ensures Name(DisassocSta) == "disassoc_sta" && IsKey("disassoc_sta") && EndFree("disassoc_sta")
  {
    assert '=' !in "disassoc_sta";
  }

  lemma KeyResetToDefault()
    ensures Name(ResetToDefault) == "reset_to_default" && IsKey("reset_to_default") && EndFree("reset_to_default")
  {
    var s := "reset_to_default";
    assert forall i | 0 <= i < 8 :: s[i] != '=';
    assert forall i | 8 <= i < |s| :: s[i] != '=';
  }

  lemma KeyProtectionFlag()
    ensures Name(ProtectionFlag) == "protection_flag" && IsKey("protection_flag") && EndFree("protection_flag")
  {
    var s := "protection_flag";
    assert forall i | 0 <= i < 8 :: s[i] != '=';
    assert forall i | 8 <= i < |s| :: s[i] != '=';
  }

  lemma KeyDataRate()
    ensures Name(DataRate) == "data_rate" && IsKey("data_rate") && EndFree("data_rate")
  {
    assert '=' !in "data_rate";
  }

  lemma KeyStaMacList()
    ensures Name(StaMacList) == "sta_mac_list" && IsKey("sta_mac_list") && EndFree("sta_mac_list")
  {
    assert '=' !in "sta_mac_list";
  }

  lemma KeyTxPower()
    ensures Name(TxPower) == "tx_power" && IsKey("tx_power") && EndFree("tx_power")
  {
    assert '=' !in "tx_power";
  }

  lemma KeySdkVersion()
    ensures Name(SdkVersion) == "sdk_version" && IsKey("sdk_version") && EndFree("sdk_version")
  {
    assert '=' !in "sdk_version";
  }

  lemma KeyWmmEnabled()
    ensures Name(WmmEnabled) == "wmm_enabled" && IsKey("wmm_enabled") && EndFree("wmm_enabled")
  {
    assert '=' !in "wmm_enabled";
  }

  lemma KeyWpsState()
    ensures Name(WpsState) == "wps_state" && IsKey("wps_state") && EndFree("wps_state")
  {
    assert '=' !in "wps_state";
  }

  lemma KeyConfigMethods()
    ensures Name(ConfigMethods) == "config_methods" && IsKey("config_methods") && EndFree("config_methods")
  {
    var s := "config_methods";
    assert forall i | 0 <= i < 8 :: s[i] != '=';
    assert forall i | 8 <= i < |s| :: s[i] != '=';
  }

  lemma KeyUuid()
    ensures Name(Uuid) == "uuid" && IsKey("uuid") && EndFree("uuid")
  {
    assert '=' !in "uuid";
  }

  lemma KeyDeviceName()
    ensures Name(DeviceName) == "device_name" && IsKey("device_name") && EndFree("device_name")
  {
    assert '=' !in "device_name";
  }

  lemma KeyManufacturer()
    ensures Name(Manufacturer) == "manufacturer" && IsKey("manufacturer") && EndFree("manufacturer")
  {
    assert '=' !in "manufacturer";
  }

  lemma KeyModelName()
    ensures Name(ModelName) == "model_name" && IsKey("model_name") && EndFree("model_name")
  {
    assert '=' !in "model_name";
  }

  lemma KeyModelNumber()
    ensures Name(ModelNumber) == "model_number" && IsKey("model_number") && EndFree("model_number")
  {
    assert '=' !in "model_number";
  }

  lemma KeySerialNumber()
    ensures Name(SerialNumber) == "serial_number" && IsKey("serial_number") && EndFree("serial_number")
  {
    assert '=' !in "serial_number";
  }

  lemma KeyDeviceType()
    ensures Name(DeviceType) == "device_type" && IsKey("device_type") && EndFree("device_type")
  {
    assert '=' !in "device_type";
  }

  lemma KeyOsVersion()
    ensures Name(OsVersion) == "os_version" && IsKey("os_version") && EndFree("os_version")
  {
    assert '=' !in "os_version";
  }

  lemma KeyFriendlyName()
    ensures Name(FriendlyName) == "friendly_name" && IsKey("friendly_name") && EndFree("friendly_name")
  {
    assert '=' !in "friendly_name";
  }

  lemma KeyManufacturerUrl()
    ensures Name(ManufacturerUrl) == "manufacturer_url" && IsKey("manufacturer_url") && EndFree("manufacturer_url")
  {
    var s := "manufacturer_url";
    assert forall i | 0 <= i < 8 :: s[i] != '=';
    assert forall i | 8 <= i < |s| :: s[i] != '=';
  }

  lemma KeyModelDescription()
    ensures Name(ModelDescription) == "model_description" && IsKey("model_description") && EndFree("model_description")
  {
    var s := "model_description";
    assert forall i | 0 <= i < 8 :: s[i] != '=';
    assert forall i | 8 <= i < 16 :: s[i] != '=';
    assert forall i | 16 <= i < |s| :: s[i] != '=';
  }

  lemma KeyModelUrl()
    ensures Name(ModelUrl) == "model_url" && IsKey("model_url") && EndFree("model_url")
  {
    assert '=' !in "model_url";
  }

  lemma KeyUpc()
    ensures Name(Upc) == "upc" && IsKey("upc") && EndFree("upc")
  {
    assert '=' !in "upc";
  }

  lemma KeyFragmThreshold()
    ensures Name(FragmThreshold) == "fragm_threshold" && IsKey("fragm_threshold") && EndFree("fragm_threshold")
  {
    var s := "fragm_threshold";
    assert forall i | 0 <= i < 8 :: s[i] != '=';
    assert forall i | 8 <= i < |s| :: s[i] != '=';
  }

  lemma KeyRtsThreshold()
    ensures Name(RtsThreshold) == "rts_threshold" && IsKey("rts_threshold") && EndFree("rts_threshold")
  {
    assert '=' !in "rts_threshold";
  }

  lemma KeyWpaGroupRekey()
    ensures Name(WpaGroupRekey) == "wpa_group_rekey" && IsKey("wpa_group_rekey") && EndFree("wpa_group_rekey")
  {
    var s := "wpa_group_rekey";
    assert forall i | 0 <= i < 8 :: s[i] != '=';
    assert forall i | 8 <= i < |s| :: s[i] != '=';
  }

  lemma KeyCountryCode()
    ensures Name(CountryCode) == "country_code" && IsKey("country_code") && EndFree("country_code")
  {
    assert '=' !in "country_code";
  }

  lemma KeyApIsolate()
    ensures Name(ApIsolate) == "ap_isolate" && IsKey("ap_isolate") && EndFree("ap_isolate")
  {
    assert '=' !in "ap_isolate";
  }

  lemma KeyIeee80211d()
    ensures Name(Ieee80211d) == "ieee80211d" && IsKey("ieee80211d") && EndFree("ieee80211d")
  {
    assert '=' !in "ieee80211d";
  }

  lemma KeyApstat()
    ensures Name(Apstat) == "apstat" && IsKey("apstat") && EndFree("apstat")
  {
    assert '=' !in "apstat";
  }

  lemma KeyAutoShutOffTime()
    ensures Name(AutoShutOffTime) == "auto_shut_off_time" && IsKey("auto_shut_off_time") && EndFree("auto_shut_off_time")
  {
    var s := "auto_shut_off_time";
    assert forall i | 0 <= i < 8 :: s[i] != '=';
    assert forall i | 8 <= i < 16 :: s[i] != '=';
    assert forall i | 16 <= i < |s| :: s[i] != '=';
  }

  lemma KeyEnergyDetectThreshold()
    ensures Name(EnergyDetectThreshold) == "energy_detect_threshold"
    ensures IsKey("energy_detect_threshold") && EndFree("energy_detect_threshold")
  {
    EnergyDetectText();
  }

  lemma EnergyDetectText()
    ensures IsKey("energy_detect_threshold") && EndFree("energy_detect_threshold")
  {
    var s := "energy_detect_threshold";
    assert forall i | 0 <= i < 8 :: s[i] != '=';
    assert forall i | 8 <= i < 16 :: s[i] != '=';
    assert forall i | 16 <= i < |s| :: s[i] != '=';
  }

  lemma KeyBasicRates()
    ensures Name(BasicRates) == "basic_rates" && IsKey("basic_rates") && EndFree("basic_rates")
  {
    assert '=' !in "basic_rates";
  }

  lemma KeyRequireHt()
    ensures Name(RequireHt) == "require_ht" && IsKey("require_ht") && EndFree("require_ht")
  {
    assert '=' !in "require_ht";
  }

  lemma KeyIeee80211n()
    ensures Name(Ieee80211n) == "ieee80211n" && IsKey("ieee80211n") && EndFree("ieee80211n")
  {
    assert '=' !in "ieee80211n";
  }

  lemma KeyMacInIni()
    ensures IsKey("gAPMacAddr") && EndFree("gAPMacAddr")
  {
    assert '=' !in "gAPMacAddr";
  }

  lemma KeyProtFlagInIni()
    ensures IsKey("gEnableApProt") && EndFree("gEnableApProt")
  {
    assert '=' !in "gEnableApProt";
    assert "gEnableApProt"[1..][..3][2] != "END"[2];
  }

  lemma KeyDataRateInIni()
    ensures IsKey("gFixedRate") && EndFree("gFixedRate")
  {
    assert '=' !in "gFixedRate";
  }

  lemma KeyTxPowerInIni()
    ensures IsKey("gTxPowerCap") && EndFree("gTxPowerCap")
  {
    assert '=' !in "gTxPowerCap";
  }

  lemma KeyFragThresholdInIni()
    ensures IsKey("gFragmentationThreshold") && EndFree("gFragmentationThreshold")
  {
    var s := "gFragmentationThreshold";
    assert forall i | 0 <= i < 8 :: s[i] != '=';
    assert forall i | 8 <= i < 16 :: s[i] != '=';
    assert forall i | 16 <= i < |s| :: s[i] != '=';
  }

  lemma KeyRtsThresholdInIni()
    ensures IsKey("RTSThreshold") && EndFree("RTSThreshold")
  {
    assert '=' !in "RTSThreshold";
  }

  lemma KeyCountryCodeInIni()
    ensures IsKey("gAPCntryCode") && EndFree("gAPCntryCode")
  {
    assert '=' !in "gAPCntryCode";
  }

  lemma KeyIntraBssFwdInIni()
    ensures IsKey("gDisableIntraBssFwd") && EndFree("gDisableIntraBssFwd")
  {
    var s := "gDisableIntraBssFwd";
    assert forall i | 0 <= i < 8 :: s[i] != '=';
    assert forall i | 8 <= i < 16 :: s[i] != '=';
    assert forall i | 16 <= i < |s| :: s[i] != '=';
  }

  lemma KeyWmmInIni()
    ensures IsKey("WmmIsEnabled") && EndFree("WmmIsEnabled")
  {
    assert '=' !in "WmmIsEnabled";
  }

  lemma KeyDot11dInIni()
    ensures IsKey("g11dSupportEnabled") && EndFree("g11dSupportEnabled")
  {
    var s := "g11dSupportEnabled";
    assert forall i | 0 <= i < 8 :: s[i] != '=';
    assert forall i | 8 <= i < 16 :: s[i] != '=';
    assert forall i | 16 <= i < |s| :: s[i] != '=';
  }

  lemma KeyAutoShutOffInIni()
    ensures IsKey("gAPAutoShutOff") && EndFree("gAPAutoShutOff")
  {
    var s := "gAPAutoShutOff";
    assert forall i | 0 <= i < 8 :: s[i] != '=';
    assert forall i | 8 <= i < |s| :: s[i] != '=';
  }

  lemma KeyEnergyDetectInIni()
    ensures IsKey("gEnablePhyAgcListenMode") && EndFree("gEnablePhyAgcListenMode")
  {
    var s := "gEnablePhyAgcListenMode";
    assert forall i | 0 <= i < 8 :: s[i] != '=';
    assert forall i | 8 <= i < 16 :: s[i] != '=';
    assert forall i | 16 <= i < |s| :: s[i] != '=';
    assert "gEnablePhyAgcListenMode"[1..][..3][2] != "END"[2];
  }

  // Values the engine defines itself or takes from qsap_api.h as fixed numbers.
  const Enable := 1
  const Disable := 0
  const MacAddrLen := 17
  const MaxAllowedMac := 15
  const AutoChannel := 0

  /** The security modes, numbered in the order the header lists them. */
  const SecModeNone := 0
  const SecModeWep := 1
  const SecModeWpaPsk := 2
  const SecModeWpa2Psk := 3
  const SecModeWpaWpa2Psk := 4
  const SecModeInvalid := 5

  /** The operating modes in the order of the hw_mode table. */
  const HwModes: seq<string> := ["b", "g", "n", "g-only", "n-only", "a"]
  const HwModeB := 0
  const HwModeG := 1
  const HwModeN := 2
  const HwModeGOnly := 3
  const HwModeNOnly := 4
  const HwModeA := 5

  /** The rest of qsap_api.h: file paths, length limits and the IS_VALID_* checks,
      which the source does not show. */
  datatype Header = Header(
    confFile: string,            // CONFIG_FILE
    iniFile: string,             // WIFI_DRIVER_CONF_FILE
    defaultConfFile: string,     // DEFAULT_CONFIG_FILE_PATH
    defaultIniFile: string,      // DEFAULT_INI_FILE
    sdkVersion: string,          // SDK_VERSION
    ssidMaxLen: int,             // SSD_MAX_LEN
    countryMaxLen: int,          // CTRY_MAX_LEN
    wpsKeyLen: int,              // WPS_KEY_LEN
    bMaxRateIdx: int,            // B_MODE_MAX_DATA_RATE_IDX
    gMaxRateIdx: int,            // G_ONLY_MODE_MAX_DATA_RATE_IDX
    wpsStateEnable: int,         // WPS_STATE_ENABLE
    wpsStateDisable: int,        // WPS_STATE_DISABLE
    wpsConfigPbc: int,           // WPS_CONFIG_PBC
    wpsConfigPin: int,           // WPS_CONFIG_PIN
    aclAllowList: int,           // ACL_ALLOW_LIST
    validNumber: (Cmd, int) -> bool,    // IS_VALID_<...>(atoi(value)) of each numeric command
    validLength: (Cmd, int) -> bool,    // IS_VALID_<...>_LEN(strlen(value)) of each text command
    validPairwise: string -> bool,      // IS_VALID_PAIRWISE
    validDataRateIdx: int -> bool,      // IS_VALID_DATA_RATE_IDX
    validWpsConfig: int -> bool         // IS_VALID_WPS_CONFIG
  )
}
