/** WPS: the state a get answers, the update of wps_state with the entries it governs,
    and the directive a WPS method request sends to hostapd. */
module Wps {
  import opened Text
  import opened Protocol
  import opened LineStore
  import opened Store
  import opened Tables
  import opened Radio
  import opened Modes

  /** qsap_read_wps_state: ENABLE when the enabled `wps_state` value is
      WPS_STATE_ENABLE, DISABLE otherwise, also when it cannot be read. */
  function ReadWpsState(fs: Fs, conf: string, h: Header): Response {
    var v := ConfigValue(fs, conf, CommandOf(WpsState, h.sdkVersion));
    var status := if v.Some? && Atoi(v.value) == h.wpsStateEnable then Enable else Disable;
    Success(Name(WpsState) + "=" + IntToString(status))
  }

  // ---------------------------------------------------------------------------
  // qsap_update_wps_config

  /** The qsap_change_cfg calls on the entries uuid to upc, in table order. */
  function WpsToggles(enable: bool): seq<Toggle> {
    seq(|WpsFields|, j requires 0 <= j < |WpsFields| => Toggle(Name(WpsFields[j]), enable))
  }

  /** The value written as wps_state for a requested status. */
  function WpsStateValue(h: Header, status: int): string {
    IntToString(if status == Enable then h.wpsStateEnable else h.wpsStateDisable)
  }

  /** qsap_update_wps_config: wps_state is written and then commented out or in with the
      status, eap_server=1 is written, and the entries uuid to upc are commented out or
      in, stopping at the first failure; ERR_UNKNOWN when a change fails, the answer of
      the eap_server write otherwise. */
  function WpsUpdate(fs: Fs, conf: string, h: Header, v: string): Step {
    var status := Atoi(v);
    var fs1 := WriteCfg(fs, conf, Name(WpsState), WpsStateValue(h, status), false).fs;
    match ChangeCfg(fs1, conf, Name(WpsState), status != Disable)
    case None => Step(fs1, Failure(Unknown))
    case Some(fs2) =>
      var s3 := WriteCfg(fs2, conf, EapServer.name, IntToString(Enable), false);
      match ChangeAllCfg(s3.fs, conf, WpsToggles(status != Disable))
      case None => Step(s3.fs, Failure(Unknown))
      case Some(fs4) => Step(fs4, s3.resp)
  }

  /** qsap_update_wps_config on the files in place. */
  method UpdateWpsConfig(files: ConfigFiles, conf: string, h: Header, v: string)
    returns (resp: Response)
    modifies files
    ensures files.fs == WpsUpdate(old(files.fs), conf, h, v).fs
    ensures resp == WpsUpdate(old(files.fs), conf, h, v).resp
  {
    var status := Atoi(v);
    var stateValue := if status == Enable then h.wpsStateEnable else h.wpsStateDisable;
    var _ := files.Write(conf, Name(WpsState), IntToString(stateValue), false);
    var ok := files.Change(conf, Name(WpsState), status != Disable);
    if !ok {
      return Failure(Unknown);
    }
    resp := files.Write(conf, EapServer.name, IntToString(Enable), false);
    ok := files.ChangeAll(conf, WpsToggles(status != Disable));
    if !ok {
      resp := Failure(Unknown);
    }
  }

  /** The WPS entries are keys distinct from wps_state and eap_server. */
  lemma WpsFieldNames()
    ensures forall j :: 0 <= j < |WpsFields| ==>
              IsKey(Name(WpsFields[j])) && Name(WpsFields[j]) != Name(WpsState)
              && Name(WpsFields[j]) != EapServer.name
  {
    forall j | 0 <= j < |WpsFields|
      ensures IsKey(Name(WpsFields[j])) && Name(WpsFields[j]) != Name(WpsState)
              && Name(WpsFields[j]) != EapServer.name
    {
      NamesAreKeys(WpsFields[j]);
      WpsFieldFirst(j);
    }
  }

  lemma WpsFieldFirst(j: nat)
    requires j < |WpsFields|
    ensures Name(WpsFields[j]) != [] && Name(WpsFields[j])[0] != 'w' && Name(WpsFields[j])[0] != 'e'
  {
    if j < 3 {
      FirstNotWe0(WpsFields[j]);
    } else if j < 6 {
      FirstNotWe1(WpsFields[j]);
    } else if j < 9 {
      FirstNotWe2(WpsFields[j]);
    } else if j < 12 {
      FirstNotWe3(WpsFields[j]);
    } else {
      FirstNotWe4(WpsFields[j]);
    }
  }

  lemma FirstNotWe0(c: Cmd)
    requires c.Uuid? || c.DeviceName? || c.Manufacturer?
    ensures Name(c) != [] && Name(c)[0] != 'w' && Name(c)[0] != 'e'
  {
  }

  lemma FirstNotWe1(c: Cmd)
    requires c.ModelName? || c.ModelNumber? || c.SerialNumber?
    ensures Name(c) != [] && Name(c)[0] != 'w' && Name(c)[0] != 'e'
  {
  }

  lemma FirstNotWe2(c: Cmd)
    requires c.DeviceType? || c.OsVersion? || c.FriendlyName?
    ensures Name(c) != [] && Name(c)[0] != 'w' && Name(c)[0] != 'e'
  {
  }

  lemma FirstNotWe3(c: Cmd)
    requires c.ManufacturerUrl? || c.ModelDescription? || c.ModelUrl?
    ensures Name(c) != [] && Name(c)[0] != 'w' && Name(c)[0] != 'e'
  {
  }

  lemma FirstNotWe4(c: Cmd)
    requires c.Upc?
    ensures Name(c) != [] && Name(c)[0] != 'w' && Name(c)[0] != 'e'
  {
  }

  lemma WpsStateNames()
    ensures IsKey(Name(WpsState)) && IsKey(EapServer.name) && Name(WpsState) != EapServer.name
  {
    NamesAreKeys(WpsState);
    assert Name(WpsState)[0] == 'w' && EapServer.name[0] == 'e';
  }

  /** The update on the lines of the configuration file, for the keys `w` (wps_state)
      and `e` (eap_server): `w` written with `sv` and then commented out or in, `e=1`
      written, and the toggles `ts` applied. */
  function WpsLines(lines: Lines, w: string, e: string, sv: string, enable: bool,
                    ts: seq<Toggle>): Lines {
    ToggleAll(WriteLines(ToggleLines(WriteLines(lines, w, sv, false), w, enable), e, "1", false), ts)
  }

  lemma OneDigits()
    ensures IntToString(Enable) == "1" && IntToString(Disable) == "0"
  {
    assert NatToString(1) == "1";
    assert NatToString(0) == "0";
  }

  /** When the configuration file opens, the update only changes its lines, and answers
      with the success of the eap_server write. */
  lemma WpsUpdateLines(fs: Fs, conf: string, h: Header, v: string)
    requires conf in fs
    ensures var status := Atoi(v);
            WpsUpdate(fs, conf, h, v)
            == Step(fs[conf := WpsLines(fs[conf], Name(WpsState), EapServer.name, WpsStateValue(h, status),
                                        status != Disable, WpsToggles(status != Disable))], Ok)
  {
    var status := Atoi(v);
    var w, e, sv, en := Name(WpsState), EapServer.name, WpsStateValue(h, status), status != Disable;
    var l1 := WriteLines(fs[conf], w, sv, false);
    var l2 := ToggleLines(l1, w, en);
    var l3 := WriteLines(l2, e, "1", false);
    OneDigits();
    assert |WpsToggles(en)| == |WpsFields|;
    UpdateTwice(fs, conf, l1, l2);
    UpdateTwice(fs, conf, l2, l3);
    UpdateTwice(fs, conf, l3, ToggleAll(l3, WpsToggles(en)));
  }

  /** On the lines: `w` answers with the value written when enabled and as not enabled
      otherwise, and `e` answers 1. */
  lemma WpsLinesMeans(lines: Lines, w: string, e: string, sv: string, enable: bool,
                      ts: seq<Toggle>, dw: Option<string>, de: Option<string>)
    requires IsKey(w) && IsKey(e) && w != e && OneLine(sv)
    requires forall j :: 0 <= j < |ts| ==> IsKey(ts[j].key) && ts[j].key != w && ts[j].key != e
    ensures ReadLines(WpsLines(lines, w, e, sv, enable, ts), w, dw, None, false)
            == if enable then Success(w + "=" + sv) else DisabledRead(Command(w, dw))
    ensures ReadLines(WpsLines(lines, w, e, sv, enable, ts), e, de, None, false) == Success(e + "=" + "1")
  {
    var l1 := WriteLines(lines, w, sv, false);
    var l2 := ToggleLines(l1, w, enable);
    var l3 := WriteLines(l2, e, "1", false);
    ToggleAllFrame(l3, ts, w, dw, None, false);
    ToggleAllFrame(l3, ts, e, de, None, false);
    WriteFrame(l2, e, w, "1", false, dw, None, false);
    if enable {
      ReadAfterEnable(l1, w, dw, None);
      ReadAfterWrite(lines, w, sv, false, dw, None, true);
    } else {
      ReadAfterDisable(l1, w, dw, None);
    }
    DigitsOneLine();
    ReadAfterWrite(l2, e, "1", false, de, None, false);
  }

  /** On the lines: each toggled key answers, after enabling, what a read through
      comments answered before, and as not enabled after disabling. */
  lemma WpsLinesFields(lines: Lines, w: string, e: string, sv: string, enable: bool,
                       ts: seq<Toggle>, i: nat, d: Option<string>)
    requires IsKey(w) && IsKey(e) && i < |ts| && '\n' !in sv
    requires forall j :: 0 <= j < |ts| ==>
               IsKey(ts[j].key) && ts[j].key != w && ts[j].key != e && ts[j].enable == enable
    ensures ReadLines(WpsLines(lines, w, e, sv, enable, ts), ts[i].key, d, None, false)
            == if enable then ReadLines(lines, ts[i].key, d, None, true) else DisabledRead(Command(ts[i].key, d))
  {
    var k := ts[i].key;
    var l1 := WriteLines(lines, w, sv, false);
    var l2 := ToggleLines(l1, w, enable);
    var l3 := WriteLines(l2, e, "1", false);
    ToggleAllSame(l3, ts, i, enable, d, None);
    if enable {
      WriteFrame(l2, e, k, "1", false, d, None, true);
      ToggleFrame(l1, w, k, enable, d, None, true);
      WriteFrame(lines, w, k, sv, false, d, None, true);
    } else {
      ReadAfterDisable(l3, k, d, None);
    }
  }

  /** On the lines: every other key answers as before. */
  lemma WpsLinesFrame(lines: Lines, w: string, e: string, sv: string, enable: bool,
                      ts: seq<Toggle>, key: string, d: Option<string>, out: Option<string>, wc: bool)
    requires IsKey(w) && IsKey(e) && IsKey(key) && key != w && key != e && '\n' !in sv
    requires forall j :: 0 <= j < |ts| ==> IsKey(ts[j].key) && ts[j].key != key
    ensures ReadLines(WpsLines(lines, w, e, sv, enable, ts), key, d, out, wc)
            == ReadLines(lines, key, d, out, wc)
  {
    var l1 := WriteLines(lines, w, sv, false);
    var l2 := ToggleLines(l1, w, enable);
    var l3 := WriteLines(l2, e, "1", false);
    ToggleAllFrame(l3, ts, key, d, out, wc);
    WriteFrame(l2, e, key, "1", false, d, out, wc);
    ToggleFrame(l1, w, key, enable, d, out, wc);
    WriteFrame(lines, w, key, sv, false, d, out, wc);
  }

  /** The keys of the WPS toggles are the WPS entries, all toggled one way. */
  lemma WpsTogglesKeys(enable: bool)
    ensures |WpsToggles(enable)| == |WpsFields|
    ensures forall j :: 0 <= j < |WpsFields| ==>
              WpsToggles(enable)[j] == Toggle(Name(WpsFields[j]), enable)
    ensures forall j :: 0 <= j < |WpsFields| ==>
              IsKey(WpsToggles(enable)[j].key) && WpsToggles(enable)[j].key != Name(WpsState)
              && WpsToggles(enable)[j].key != EapServer.name
  {
    WpsFieldNames();
  }

  /** qsap_update_wps_config succeeds once the configuration file opens; a get of
      wps_state then answers ENABLE exactly when the status was ENABLE, and eap_server
      is 1. Both header values are told apart, and ENABLE is not the default "0". */
  lemma WpsUpdateMeans(fs: Fs, conf: string, h: Header, v: string)
    requires conf in fs
    requires h.wpsStateEnable != h.wpsStateDisable && h.wpsStateEnable != 0
    ensures var r := WpsUpdate(fs, conf, h, v);
            r.resp == Ok
            && ReadWpsState(r.fs, conf, h)
               == Success(Name(WpsState) + "=" + IntToString(if Atoi(v) == Enable then Enable else Disable))
            && ConfigValue(r.fs, conf, EapServer) == Some("1")
  {
    var status := Atoi(v);
    var n := if status == Enable then h.wpsStateEnable else h.wpsStateDisable;
    WpsUpdateValues(fs, conf, h, v);
    if status != Disable {
      AtoiOfIntToString(n);
    } else {
      OneDigits();
      AtoiOfIntToString(0);
    }
  }

  /** The values the update leaves: wps_state holds the value written while it is in
      force and answers the default "0" once commented out; eap_server holds 1. */
  lemma WpsUpdateValues(fs: Fs, conf: string, h: Header, v: string)
    requires conf in fs
    ensures var r := WpsUpdate(fs, conf, h, v);
            r.resp == Ok
            && ConfigValue(r.fs, conf, CommandOf(WpsState, h.sdkVersion))
               == Some(if Atoi(v) != Disable then WpsStateValue(h, Atoi(v)) else "0")
            && ConfigValue(r.fs, conf, EapServer) == Some("1")
  {
    var status := Atoi(v);
    var en := status != Disable;
    var w, e, sv := Name(WpsState), EapServer.name, WpsStateValue(h, status);
    var cmd := CommandOf(WpsState, h.sdkVersion);
    var r := WpsUpdate(fs, conf, h, v);
    WpsUpdateLines(fs, conf, h, v);
    WpsStateNames();
    WpsTogglesKeys(en);
    NumberOneLine(if status == Enable then h.wpsStateEnable else h.wpsStateDisable);
    WpsStateDefault(h.sdkVersion);
    WpsLinesMeans(fs[conf], w, e, sv, en, WpsToggles(en), cmd.dflt, None);
    ValueOfRead(r.fs, conf, cmd, if en then sv else "0");
    ValueOfRead(r.fs, conf, EapServer, "1");
  }

  /** A read that answers `name=x` gives the value `x`. */
  lemma ValueOfRead(fs: Fs, path: string, cmd: Command, x: string)
    requires IsKey(cmd.name)
    requires ReadCfg(fs, path, cmd, None, false) == Success(cmd.name + "=" + x)
    ensures ConfigValue(fs, path, cmd) == Some(x)
  {
    AfterKeyEq(cmd.name, x);
    assert (cmd.name + "=" + x)[|cmd.name|] == '=';
  }

  /** After the update each WPS entry is in force, with the value a read through comments
      found before, when the status was not DISABLE, and commented out otherwise. */
  lemma WpsUpdateFields(fs: Fs, conf: string, h: Header, v: string, i: nat)
    requires conf in fs && i < |WpsFields|
    ensures var cmd := CommandOf(WpsFields[i], h.sdkVersion);
            ReadCfg(WpsUpdate(fs, conf, h, v).fs, conf, cmd, None, false)
            == if Atoi(v) != Disable then ReadCfg(fs, conf, cmd, None, true) else DisabledRead(cmd)
  {
    var en := Atoi(v) != Disable;
    var cmd := CommandOf(WpsFields[i], h.sdkVersion);
    WpsUpdateLines(fs, conf, h, v);
    WpsStateNames();
    WpsTogglesKeys(en);
    NumberOneLine(if Atoi(v) == Enable then h.wpsStateEnable else h.wpsStateDisable);
    WpsLinesFields(fs[conf], Name(WpsState), EapServer.name, WpsStateValue(h, Atoi(v)), en,
                   WpsToggles(en), i, cmd.dflt);
  }

  /** The update changes no read of a key other than wps_state, eap_server and the WPS
      entries. */
  lemma WpsUpdateFrame(fs: Fs, conf: string, h: Header, v: string,
                       p: string, cmd: Command, out: Option<string>, wc: bool)
    requires IsKey(cmd.name) && cmd.name != Name(WpsState) && cmd.name != EapServer.name
    requires forall j :: 0 <= j < |WpsFields| ==> Name(WpsFields[j]) != cmd.name
    ensures ReadCfg(WpsUpdate(fs, conf, h, v).fs, p, cmd, out, wc) == ReadCfg(fs, p, cmd, out, wc)
  {
    if conf in fs {
      var en := Atoi(v) != Disable;
      WpsUpdateLines(fs, conf, h, v);
      WpsStateNames();
      WpsTogglesKeys(en);
      NumberOneLine(if Atoi(v) == Enable then h.wpsStateEnable else h.wpsStateDisable);
      WpsLinesFrame(fs[conf], Name(WpsState), EapServer.name, WpsStateValue(h, Atoi(v)), en,
                    WpsToggles(en), cmd.name, cmd.dflt, out, wc);
    }
  }

  lemma WpsStateDefault(sdk: string)
    ensures Default(WpsState, sdk) == Some("0")
  {
  }

  // ---------------------------------------------------------------------------
  // qsap_config_wps_method

  /** The characters before the first space: the method number the request starts with. */
  function UpToSpace(s: string): (r: string)
    ensures |r| <= |s| && r == s[..|r|] && ' ' !in r
    ensures |r| == |s| || s[|r|] == ' '
  {
    if s == [] || s[0] == ' ' then [] else [s[0]] + UpToSpace(s[1..])
  }

  /** The prefix of the directive of the PIN method. */
  const PinDirective := "WPS_PIN any "

  /** The characters buf[64] holds before its terminator. */
  const BufRoom := 63

  /** What snprintf(buf, 64, ...) leaves of a text: all of it when it fits, otherwise its
      first 63 characters. */
  function FitBuf(s: string): (r: string)
    ensures |r| <= BufRoom && StartsWith(s, r)
    ensures |r| == |s| || |r| == BufRoom
  {
    if |s| <= BufRoom then s else s[..BufRoom]
  }

  /** The directive qsap_config_wps_method sends to hostapd for the request "<method>
      <pin>", or `None` where it answers ERR_INVALID_PARAM: a method IS_VALID_WPS_CONFIG
      refuses, the PIN method without a PIN, or a PIN shorter than WPS_KEY_LEN. The PIN
      directive is cut to what buf[64] holds. */
  function WpsDirective(h: Header, v: string): Option<string> {
    var token := UpToSpace(v);
    var value := Atoi(token);
    var rest := SkipBlanks(v[|token|..]);
    if !h.validWpsConfig(value) then None
    else if value == h.wpsConfigPin && rest == [] then None
    else if value == h.wpsConfigPbc then Some("WPS_PBC")
    else if |rest| < h.wpsKeyLen then None
    else Some(FitBuf(PinDirective + rest))
  }

  /** qsap_config_wps_method: ERR_INVALID_PARAM for a request it refuses; otherwise
      success or ERR_UNKNOWN as hostapd takes the directive or not. */
  function WpsMethod(h: Header, v: string, hostapdOk: bool): (r: Response)
    ensures r == Failure(InvalidParam) <==> WpsDirective(h, v).None?
    ensures r == Ok <==> WpsDirective(h, v).Some? && hostapdOk
  {
    match WpsDirective(h, v)
    case None => Failure(InvalidParam)
    case Some(_) => if hostapdOk then Ok else Failure(Unknown)
  }

  /** The copy of the method number into buf: the index of the first space, or the end. */
  method ScanToken(v: string) returns (i: nat)
    ensures i <= |v| && v[..i] == UpToSpace(v)
  {
    i := 0;
    while i < |v| && v[i] != ' '
      invariant i <= |v|
      invariant forall k :: 0 <= k < i ==> v[k] != ' '
    {
      i := i + 1;
    }
    assert v[..i] + v[i..] == v;
    UpToSpaceConcat(v[..i], v[i..]);
  }

  /** SKIP_BLANK_SPACE from index `i`: the index of the first character that is not blank. */
  method ScanBlanks(v: string, i: nat) returns (j: nat)
    requires i <= |v|
    ensures i <= j <= |v| && v[j..] == SkipBlanks(v[i..])
  {
    j := i;
    while j < |v| && IsBlank(v[j])
      invariant i <= j <= |v|
      invariant SkipBlanks(v[i..]) == SkipBlanks(v[j..])
    {
      assert v[j..][1..] == v[j + 1..];
      j := j + 1;
    }
  }

  /** qsap_config_wps_method: `sent` is the directive handed to hostapd, whose verdict
      is `hostapdOk`. */
  method ConfigWpsMethod(h: Header, v: string, hostapdOk: bool) returns (sent: Option<string>, resp: Response)
    ensures sent == WpsDirective(h, v)
    ensures resp == WpsMethod(h, v, hostapdOk)
  {
    var i := ScanToken(v);
    var value := Atoi(v[..i]);
    if !h.validWpsConfig(value) {
      return None, Failure(InvalidParam);
    }
    var j := ScanBlanks(v, i);
    var rest := v[j..];
    if value == h.wpsConfigPin && rest == [] {
      return None, Failure(InvalidParam);
    }
    if value == h.wpsConfigPbc {
      sent := Some("WPS_PBC");
    } else {
      if |rest| < h.wpsKeyLen {
        return None, Failure(InvalidParam);
      }
      var directive := PinDirective + rest;
      if |directive| > BufRoom {
        directive := directive[..BufRoom];
      }
      sent := Some(directive);
    }
    resp := if hostapdOk then Ok else Failure(Unknown);
  }

  /** A number printed has no space in it. */
  lemma IntHasNoSpace(n: int)
    ensures ' ' !in IntToString(n)
  {
    var d := NatToString(if n < 0 then -n else n);
    assert forall i :: 0 <= i < |d| ==> d[i] != ' ';
    if n < 0 {
      assert forall i :: 1 <= i < |"-" + d| ==> ("-" + d)[i] == d[i - 1];
    }
  }

  lemma {:induction false} UpToSpaceConcat(a: string, b: string)
    requires ' ' !in a && (b == [] || b[0] == ' ')
    ensures UpToSpace(a + b) == a
    decreases |a|
  {
    if a != [] {
      assert (a + b)[1..] == a[1..] + b;
      UpToSpaceConcat(a[1..], b);
    } else {
      assert a + b == b;
    }
  }

  /** The request a client sends for a method: the number, and what follows it. */
  function WpsRequest(m: int, rest: string): string {
    IntToString(m) + rest
  }

  lemma RequestSplit(m: int, rest: string)
    requires rest == [] || rest[0] == ' '
    ensures var v := WpsRequest(m, rest);
            UpToSpace(v) == IntToString(m) && v[|IntToString(m)|..] == rest
            && Atoi(UpToSpace(v)) == m
  {
    IntHasNoSpace(m);
    UpToSpaceConcat(IntToString(m), rest);
    AtoiOfIntToString(m);
    assert (IntToString(m) + rest)[|IntToString(m)|..] == rest;
  }

  /** A PBC request, with or without anything after the number, gives the PBC directive. */
  lemma WpsPbcRequest(h: Header, rest: string)
    requires h.validWpsConfig(h.wpsConfigPbc) && h.wpsConfigPbc != h.wpsConfigPin
    requires rest == [] || rest[0] == ' '
    ensures WpsDirective(h, WpsRequest(h.wpsConfigPbc, rest)) == Some("WPS_PBC")
  {
    RequestSplit(h.wpsConfigPbc, rest);
  }

  /** A PIN request "<pin method> <pin>" gives a PIN directive exactly when the PIN is at
      least WPS_KEY_LEN long. The directive carries the whole PIN when it fits in buf[64],
      and otherwise as much of it as fits. */
  lemma WpsPinRequest(h: Header, pin: string)
    requires h.validWpsConfig(h.wpsConfigPin) && h.wpsConfigPbc != h.wpsConfigPin
    requires pin != [] && !IsBlank(pin[0])
    ensures var d := WpsDirective(h, WpsRequest(h.wpsConfigPin, " " + pin));
            (d.Some? <==> |pin| >= h.wpsKeyLen)
            && (d.Some? && |PinDirective + pin| <= BufRoom ==> d.value == PinDirective + pin)
            && (d.Some? && |PinDirective + pin| > BufRoom ==>
                  d.value == PinDirective + pin[..BufRoom - |PinDirective|])
  {
    PinDirectiveOf(h, pin);
    FitPin(pin);
  }

  lemma PinDirectiveOf(h: Header, pin: string)
    requires h.validWpsConfig(h.wpsConfigPin) && h.wpsConfigPbc != h.wpsConfigPin
    requires pin != [] && !IsBlank(pin[0])
    ensures WpsDirective(h, WpsRequest(h.wpsConfigPin, " " + pin))
            == if |pin| >= h.wpsKeyLen then Some(FitBuf(PinDirective + pin)) else None
  {
    RequestSplit(h.wpsConfigPin, " " + pin);
    assert (" " + pin)[1..] == pin;
  }

  /** The cut of the PIN directive to the room of buf. */
  lemma FitPin(pin: string)
    ensures |PinDirective + pin| <= BufRoom ==> FitBuf(PinDirective + pin) == PinDirective + pin
    ensures |PinDirective + pin| > BufRoom
            ==> FitBuf(PinDirective + pin) == PinDirective + pin[..BufRoom - |PinDirective|]
  {
    if |PinDirective + pin| > BufRoom {
      assert (PinDirective + pin)[..BufRoom] == PinDirective + pin[..BufRoom - |PinDirective|];
    }
  }

  /** A PIN request with nothing but blanks after the number is refused. */
  lemma WpsPinMissing(h: Header, blanks: string)
    requires blanks == [] || blanks[0] == ' '
    requires forall i :: 0 <= i < |blanks| ==> IsBlank(blanks[i])
    ensures WpsDirective(h, WpsRequest(h.wpsConfigPin, blanks)) == None
  {
    RequestSplit(h.wpsConfigPin, blanks);
    BlanksSkipped(blanks);
  }

  lemma {:induction false} BlanksSkipped(s: string)
    requires forall i :: 0 <= i < |s| ==> IsBlank(s[i])
    ensures SkipBlanks(s) == []
    decreases |s|
  {
    if s != [] {
      BlanksSkipped(s[1..]);
    }
  }
}
