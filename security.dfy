/** The security mode of the access point. It is not stored as such: it is derived
    from which of `wep_default_key` and `wpa` are enabled in the hostapd file, and setting
    it writes `wpa` and enables or comments out the entries of each kind of security. */
module Security {
  import opened Text
  import opened Protocol
  import opened LineStore
  import opened Store
  import opened Tables

  const DefaultKeyEntry := Command(Name(WepDefaultKey), None)

  /** The mode a `wpa` value names: its first character is 1, 2 or 3. */
  function WpaMode(value: string): (m: int)
    ensures m in {SecModeWpaPsk, SecModeWpa2Psk, SecModeWpaWpa2Psk, SecModeInvalid}
  {
    if value == [] then SecModeInvalid
    else if value[0] == '1' then SecModeWpaPsk
    else if value[0] == '2' then SecModeWpa2Psk
    else if value[0] == '3' then SecModeWpaWpa2Psk
    else SecModeInvalid
  }

  /** The `wpa` value each WPA mode is stored as (WPA_IN_CONF_FILE and the others). */
  function WpaValue(m: int): string
    requires SecModeWpaPsk <= m <= SecModeWpaWpa2Psk
  {
    if m == SecModeWpaPsk then "1" else if m == SecModeWpa2Psk then "2" else "3"
  }

  /** The mode derived, and the line qsap_read_security_mode answers with. */
  datatype ModeRead = ModeRead(mode: int, resp: Response)

  /** qsap_read_security_mode. A read of `wep_default_key` that does not report the key as
      not enabled counts as WEP being on, so a file that cannot be opened ends as the
      unknown failure of two enabled kinds of security. */
  function SecurityRead(fs: Fs, conf: string): ModeRead {
    var k := ReadCfg(fs, conf, DefaultKeyEntry, None, false);
    var w := ReadCfg(fs, conf, Wpa, None, false);
    if k != Failure(FeatureNotEnabled) && w != Failure(FeatureNotEnabled) then
      ModeRead(SecModeInvalid, Failure(Unknown))
    else
      var mode :=
        if k != Failure(FeatureNotEnabled) then SecModeWep
        else if w == Failure(FeatureNotEnabled) then SecModeNone
        else if w.Success? then WpaMode(AfterEq(w.text))
        else SecModeInvalid;
      ModeRead(mode, if mode != SecModeInvalid then Success(Name(SecurityMode) + "=" + IntToString(mode))
                     else Failure(NotSupported))
  }

  /** The qsap_change_cfg calls of qsap_set_security_mode, in order: the WEP entries follow
      WEP, the passphrase follows WPA, `wpa_pairwise` is on for WPA and mixed mode (only
      touched in the WPA modes), `rsn_pairwise` is on for WPA2 and mixed mode, and `wpa`
      itself comes last. */
  function SecurityToggles(m: int): seq<Toggle> {
    var wep := m == SecModeWep;
    var wpa := m != SecModeNone && m != SecModeWep;
    var rsn := m == SecModeWpa2Psk || m == SecModeWpaWpa2Psk;
    [Toggle(Name(WepDefaultKey), wep), Toggle(Name(WepKey0), wep), Toggle(Name(WepKey1), wep),
     Toggle(Name(WepKey2), wep), Toggle(Name(WepKey3), wep), Toggle(Name(WpaPassphrase), wpa)]
    + (if wpa then [Toggle(Name(WpaPairwise), m == SecModeWpaWpa2Psk || !rsn)] else [])
    + [Toggle(Name(RsnPairwise), rsn), Toggle(Wpa.name, wpa)]
  }

  /** qsap_set_security_mode. An unknown mode is refused; a WPA mode first writes `wpa`
      (whatever that answers), then the entries are toggled, stopping at the first
      failure. */
  function SecuritySet(fs: Fs, conf: string, m: int): Step {
    if m < 0 || m >= SecModeInvalid then Step(fs, Failure(Unknown))
    else
      var fs1 := if m >= SecModeWpaPsk then WriteCfg(fs, conf, Wpa.name, WpaValue(m), false).fs else fs;
      match ChangeAllCfg(fs1, conf, SecurityToggles(m))
      case None => Step(fs1, Failure(Unknown))
      case Some(fs2) => Step(fs2, Ok)
  }

  /** qsap_read_security_mode on the files in place. */
  method ReadSecurityMode(files: ConfigFiles, conf: string) returns (r: ModeRead)
    ensures r == SecurityRead(files.fs, conf)
  {
    var k := files.Read(conf, DefaultKeyEntry, None, false);
    var w := files.Read(conf, Wpa, None, false);
    var mode: int;
    if k == Failure(FeatureNotEnabled) {
      if w == Failure(FeatureNotEnabled) {
        mode := SecModeNone;
      } else if w.Success? {
        mode := WpaMode(AfterEq(w.text));
      } else {
        mode := SecModeInvalid;
      }
    } else {
      if w == Failure(FeatureNotEnabled) {
        mode := SecModeWep;
      } else {
        return ModeRead(SecModeInvalid, Failure(Unknown));
      }
    }
    if mode != SecModeInvalid {
      r := ModeRead(mode, Success(Name(SecurityMode) + "=" + IntToString(mode)));
    } else {
      r := ModeRead(mode, Failure(NotSupported));
    }
  }

  /** qsap_set_security_mode on the files in place. */
  method SetSecurityMode(files: ConfigFiles, conf: string, m: int) returns (resp: Response)
    modifies files
    ensures files.fs == SecuritySet(old(files.fs), conf, m).fs
    ensures resp == SecuritySet(old(files.fs), conf, m).resp
  {
    if m < 0 || m >= SecModeInvalid {
      return Failure(Unknown);
    }
    if m >= SecModeWpaPsk {
      var _ := files.Write(conf, Wpa.name, WpaValue(m), false);
    }
    var ok := files.ChangeAll(conf, SecurityToggles(m));
    resp := if ok then Ok else Failure(Unknown);
  }

  /** The derivation, stated on the entries of the file: WEP when only an uncommented
      `wep_default_key` is present, no security when neither is, the mode the `wpa` value
      names when only `wpa` is, and the unknown failure when both are. */
  lemma SecurityDerivation(fs: Fs, conf: string)
    requires conf in fs
    ensures var lines := fs[conf];
            var k := FindEntry(lines, Name(WepDefaultKey), false);
            var w := FindEntry(lines, Wpa.name, false);
            var r := SecurityRead(fs, conf);
            (k.Some? && w.None? ==> r.mode == SecModeWep)
            && (k.None? && w.None? ==> r.mode == SecModeNone)
            && (k.None? && w.Some? ==> r.mode == WpaMode(AfterEq(TrimCrLf(lines[w.value]))))
            && (k.Some? && w.Some? ==> r == ModeRead(SecModeInvalid, Failure(Unknown)))
            && (r.mode != SecModeInvalid <==> r.resp.Success?)
  {
    var lines := fs[conf];
    var w := FindEntry(lines, Wpa.name, false);
    if w.Some? {
      assert !IsCommented(lines[w.value]);
    }
  }

  /** A file that cannot be opened has no security mode. */
  lemma SecurityReadMissing(fs: Fs, conf: string)
    requires conf !in fs
    ensures SecurityRead(fs, conf) == ModeRead(SecModeInvalid, Failure(Unknown))
  {
  }

  /** The names of the entries qsap_set_security_mode toggles. */
  const ToggledNames: seq<string> := ["wep_default_key", "wep_key0", "wep_key1", "wep_key2",
    "wep_key3", "wpa_passphrase", "wpa_pairwise", "rsn_pairwise", "wpa"]

  lemma ToggledNamesAreKeys()
    ensures forall k :: k in ToggledNames ==> IsKey(k)
  {
  }

  /** Where the toggles of qsap_set_security_mode start and end. */
  lemma TogglesEnds(m: int)
    ensures var ts := SecurityToggles(m);
            |ts| >= 2 && ts[0] == Toggle(Name(WepDefaultKey), m == SecModeWep)
            && ts[|ts| - 1] == Toggle(Wpa.name, m != SecModeNone && m != SecModeWep)
  {
  }

  lemma TogglesNames(m: int)
    ensures var ts := SecurityToggles(m);
            forall j :: 0 <= j < |ts| ==> ts[j].key in ToggledNames
  {
  }

  lemma TogglesMiddle(m: int)
    ensures var ts := SecurityToggles(m);
            (forall j :: 1 <= j < |ts| ==> ts[j].key != "wep_default_key")
            && (forall j :: 0 <= j < |ts| - 1 ==> ts[j].key != "wpa")
  {
  }

  /** The toggles of qsap_set_security_mode: only the first and the last touch the two
      entries the mode is derived from. */
  lemma TogglesShape(m: int)
    ensures var ts := SecurityToggles(m);
            |ts| >= 2 && ts[0] == Toggle(Name(WepDefaultKey), m == SecModeWep)
            && ts[|ts| - 1] == Toggle(Wpa.name, m != SecModeNone && m != SecModeWep)
            && (forall j :: 0 <= j < |ts| ==> IsKey(ts[j].key))
            && (forall j :: 1 <= j < |ts| ==> ts[j].key != Name(WepDefaultKey))
            && (forall j :: 0 <= j < |ts| - 1 ==> ts[j].key != Wpa.name)
  {
    ToggledNamesAreKeys();
    TogglesEnds(m);
    TogglesNames(m);
    TogglesMiddle(m);
  }

  /** After the toggles of a mode, the `wep_default_key` read answers from the entry as it
      was before, commented or not, when the mode is WEP, and reports the key as not enabled
      otherwise. */
  lemma DefaultKeyAfterToggles(lines: Lines, m: int)
    ensures var t := ToggleAll(lines, SecurityToggles(m));
            var k := ReadLines(t, Name(WepDefaultKey), None, None, false);
            if m == SecModeWep then k == ReadLines(lines, Name(WepDefaultKey), None, None, true)
            else k == Failure(FeatureNotEnabled)
  {
    var ts := SecurityToggles(m);
    var key := Name(WepDefaultKey);
    TogglesShape(m);
    assert ts == [ts[0]] + ts[1..];
    ToggleAllCons(lines, ts[0], ts[1..]);
    var t0 := ToggleLines(lines, key, m == SecModeWep);
    ToggleAllFrame(t0, ts[1..], key, None, None, false);
    if m == SecModeWep {
      ReadAfterEnable(lines, key, None, None);
    } else {
      ReadAfterDisable(lines, key, None, None);
    }
  }

  /** After the toggles of a mode, the `wpa` read answers from the entry as it was before,
      commented or not, in a WPA mode, and reports the key as not enabled otherwise. */
  lemma WpaAfterToggles(lines: Lines, m: int)
    ensures var t := ToggleAll(lines, SecurityToggles(m));
            var w := ReadLines(t, Wpa.name, None, None, false);
            if m != SecModeNone && m != SecModeWep then w == ReadLines(lines, Wpa.name, None, None, true)
            else w == Failure(FeatureNotEnabled)
  {
    var ts := SecurityToggles(m);
    var key := Wpa.name;
    TogglesShape(m);
    var front := ts[..|ts| - 1];
    var t1 := ToggleAll(lines, front);
    assert ToggleAll(lines, ts) == ToggleLines(t1, key, m != SecModeNone && m != SecModeWep);
    if m != SecModeNone && m != SecModeWep {
      ReadAfterEnable(t1, key, None, None);
      ToggleAllFrame(lines, front, key, None, None, true);
    } else {
      ReadAfterDisable(t1, key, None, None);
    }
  }

  /** Setting a mode and reading it back: every mode the set accepts is read back as itself,
      with `success security_mode=<mode>`, provided for WEP that the file has a
      `wep_default_key` entry to enable. */
  lemma SecurityRoundTrip(fs: Fs, conf: string, m: int)
    requires conf in fs
    requires SecModeNone <= m < SecModeInvalid
    requires m == SecModeWep ==> FindEntry(fs[conf], Name(WepDefaultKey), true).Some?
    ensures SecuritySet(fs, conf, m).resp == Ok
    ensures SecurityRead(SecuritySet(fs, conf, m).fs, conf)
            == ModeRead(m, Success(Name(SecurityMode) + "=" + IntToString(m)))
  {
    var wpaOn := m != SecModeNone && m != SecModeWep;
    var lines1 := if wpaOn then WriteLines(fs[conf], Wpa.name, WpaValue(m), false) else fs[conf];
    var fs2 := SecuritySet(fs, conf, m).fs;
    TogglesShape(m);
    assert fs2[conf] == ToggleAll(lines1, SecurityToggles(m));
    DefaultKeyAfterToggles(lines1, m);
    WpaAfterToggles(lines1, m);
    ToggledNamesAreKeys();
    assert IsKey(Wpa.name);
    if wpaOn {
      var v := WpaValue(m);
      assert OneLine(v);
      ReadAfterWrite(fs[conf], Wpa.name, v, false, None, None, true);
      AfterKeyEq(Wpa.name, v);
      assert AfterEq(Wpa.name + "=" + v) == v;
    } else if m == SecModeWep {
      assert ReadLines(fs[conf], Name(WepDefaultKey), None, None, true).Success?;
    }
  }

  /** Without a `wep_default_key` entry, setting WEP does not take: the mode read back is
      no security. */
  lemma WepNeedsDefaultKey(fs: Fs, conf: string)
    requires conf in fs
    requires FindEntry(fs[conf], Name(WepDefaultKey), true).None?
    ensures SecurityRead(SecuritySet(fs, conf, SecModeWep).fs, conf).mode == SecModeNone
  {
    var lines := fs[conf];
    DefaultKeyAfterToggles(lines, SecModeWep);
    WpaAfterToggles(lines, SecModeWep);
  }

  /** Setting the mode changes no read of an entry outside the ones it toggles, in any
      file. */
  lemma SecuritySetFrame(fs: Fs, conf: string, m: int, path: string, cmd: Command,
                         outName: Option<string>, withComments: bool)
    requires IsKey(cmd.name) && cmd.name !in ToggledNames
    ensures ReadCfg(SecuritySet(fs, conf, m).fs, path, cmd, outName, withComments)
            == ReadCfg(fs, path, cmd, outName, withComments)
  {
    if SecModeNone <= m < SecModeInvalid && conf in fs && path == conf {
      var wpaOn := m != SecModeNone && m != SecModeWep;
      var lines1 := if wpaOn then WriteLines(fs[conf], Wpa.name, WpaValue(m), false) else fs[conf];
      TogglesShape(m);
      TogglesNames(m);
      ToggledNamesAreKeys();
      ToggleAllFrame(lines1, SecurityToggles(m), cmd.name, cmd.dflt, outName, withComments);
      if wpaOn {
        WriteFrame(fs[conf], Wpa.name, cmd.name, WpaValue(m), false, cmd.dflt, outName, withComments);
      }
    }
  }
}
