/** The readers of the fields that are not answered as stored: the MAC address, the
    channel and the auto shut-off time; and the value lookup the setters share. */
module Radio {
  import opened Text
  import opened Protocol
  import opened LineStore
  import opened Store
  import opened Tables
  import opened Mac

  /** qsap_get_config_value: the text after '=' of an enabled-only read, or `None`. */
  function ConfigValue(fs: Fs, path: string, cmd: Command): Option<string> {
    match ReadCfg(fs, path, cmd, None, false)
    case Success(t) => if '=' in t then Some(AfterEq(t)) else None
    case Failure(_) => None
  }

  /** A value written as one line is the value read. */
  lemma ConfigValueAfterWrite(fs: Fs, path: string, cmd: Command, value: string, ini: bool)
    requires path in fs && IsKey(cmd.name) && (ini ==> EndFree(cmd.name))
    requires OneLine(value)
    ensures ConfigValue(WriteCfg(fs, path, cmd.name, value, ini).fs, path, cmd) == Some(value)
  {
    ReadAfterWrite(fs[path], cmd.name, value, ini, cmd.dflt, None, false);
    assert (cmd.name + "=" + value)[|cmd.name|] == '=';
    AfterKeyEq(cmd.name, value);
  }

  /** Writing one key, with a value that has no line feed, changes no read of another
      key, in any file. */
  lemma WriteReadFrame(fs: Fs, path: string, key: string, value: string, ini: bool,
                       p: string, cmd: Command, out: Option<string>, wc: bool)
    requires IsKey(key) && IsKey(cmd.name) && key != cmd.name
    requires ini ==> EndFree(key) && EndFree(cmd.name)
    requires '\n' !in value
    ensures ReadCfg(WriteCfg(fs, path, key, value, ini).fs, p, cmd, out, wc) == ReadCfg(fs, p, cmd, out, wc)
  {
    if path in fs && p == path {
      WriteFrame(fs[path], key, cmd.name, value, ini, cmd.dflt, out, wc);
    }
  }

  /** Commenting or uncommenting one key changes no read of another key, in any file. */
  lemma ChangeReadFrame(fs: Fs, path: string, key: string, enable: bool,
                        p: string, cmd: Command, out: Option<string>, wc: bool)
    requires IsKey(key) && IsKey(cmd.name) && key != cmd.name
    requires ChangeCfg(fs, path, key, enable).Some?
    ensures ReadCfg(ChangeCfg(fs, path, key, enable).value, p, cmd, out, wc) == ReadCfg(fs, p, cmd, out, wc)
  {
    if p == path {
      ToggleFrame(fs[path], key, cmd.name, enable, cmd.dflt, out, wc);
    }
  }

  /** qsap_get_config_value on the files in place. */
  method GetConfigValue(files: ConfigFiles, path: string, cmd: Command) returns (v: Option<string>)
    ensures v == ConfigValue(files.fs, path, cmd)
  {
    var r := files.Read(path, cmd, None, false);
    if r.Success? && '=' in r.text {
      v := Some(AfterEq(r.text));
    } else {
      v := None;
    }
  }


  // ---------------------------------------------------------------------------
  // qsap_read_mac_address

  /** The character at `i` of the 17-byte copy strncpy makes of the value: NUL past its
      end. */
  function CopiedChar(v: string, i: nat): char {
    if i < |v| && i < MacAddrLen then v[i] else '\0'
  }

  /** The character the regrouping puts at `j`: a colon after every two characters. */
  function RegroupChar(v: string, j: nat): char {
    if j % 3 == 2 then ':' else CopiedChar(v, 2 * (j / 3) + j % 3)
  }

  /** The first twelve characters of the value in six colon-separated pairs. */
  function Regrouped(v: string): (g: string)
    ensures |g| == MacAddrLen
  {
    seq(MacAddrLen, j requires 0 <= j < MacAddrLen => RegroupChar(v, j))
  }

  /** qsap_read_mac_address, with the failure answer qsap_get_from_config gives it. */
  function ReadMacAddress(fs: Fs, ini: string): Response {
    match ReadCfg(fs, ini, MacInIni, Some(Name(MacAddress)), false)
    case Failure(_) => Failure(NotSupported)
    case Success(t) =>
      if '=' !in t then Failure(NotSupported)
      else
        var g := Regrouped(AfterEq(t));
        if IsValidMac(g) then Success(Name(MacAddress) + "=" + g) else Failure(NotSupported)
  }

  lemma Thirds(k: nat)
    ensures (3 * k) / 3 == k && (3 * k) % 3 == 0
    ensures (3 * k + 1) / 3 == k && (3 * k + 1) % 3 == 1
    ensures (3 * k + 2) % 3 == 2
  {
  }

  /** The regrouping loop of qsap_read_mac_address: two characters and a colon at a time,
      the last colon cut. */
  method RegroupLoop(v: string) returns (g: string)
    ensures g == Regrouped(v)
  {
    var out := [];
    var i := 0;
    while i < MacAddrLen - 5
      invariant 0 <= i <= MacAddrLen - 5 && i % 2 == 0
      invariant |out| == 3 * (i / 2)
      invariant forall j :: 0 <= j < |out| ==> out[j] == RegroupChar(v, j)
    {
      var k := i / 2;
      Thirds(k);
      out := out + [CopiedChar(v, i), CopiedChar(v, i + 1), ':'];
      i := i + 2;
    }
    g := out[..|out| - 1];
  }

  lemma ColonPosThird(j: nat)
    requires j < MacAddrLen
    ensures IsColonPos(j) <==> j % 3 == 2
  {
  }

  /** Position `i` of the value lands at position 3 * (i / 2) + i % 2 of the answer. */
  lemma RegroupedAt(v: string, i: nat)
    requires i < 12
    ensures var j := 3 * (i / 2) + i % 2;
            j < MacAddrLen && !IsColonPos(j) && Regrouped(v)[j] == CopiedChar(v, i)
  {
    var j := 3 * (i / 2) + i % 2;
    Thirds(i / 2);
    ColonPosThird(j);
    assert Regrouped(v)[j] == RegroupChar(v, j);
  }

  /** The regrouped value is a valid address exactly when the value starts with twelve hex
      digits. */
  lemma RegroupedValid(v: string)
    ensures IsValidMac(Regrouped(v))
            <==> |v| >= 12 && forall i :: 0 <= i < 12 ==> IsHexDigit(v[i])
  {
    var g := Regrouped(v);
    ValidMacMeans(g);
    if IsValidMac(g) {
      forall i | 0 <= i < 12
        ensures i < |v| && IsHexDigit(v[i])
      {
        RegroupedAt(v, i);
      }
      RegroupedAt(v, 11);
    }
    if |v| >= 12 && forall i :: 0 <= i < 12 ==> IsHexDigit(v[i]) {
      forall j | 0 <= j < MacAddrLen
        ensures IsColonPos(j) ==> g[j] == ':'
        ensures !IsColonPos(j) ==> IsHexDigit(g[j])
      {
        ColonPosThird(j);
        assert g[j] == RegroupChar(v, j);
        assert 2 * (j / 3) + j % 3 < 12;
      }
    }
  }

  /** The six bytes qsap_get_mac_in_bytes takes from the answer are the values of the six
      pairs of digits of the stored value. */
  lemma RegroupedBytes(v: string)
    requires |v| >= 12 && forall i :: 0 <= i < 12 ==> IsHexDigit(v[i])
    ensures MacInBytes(Regrouped(v)) == Some(DigitPairs(v))
  {
    var g := Regrouped(v);
    RegroupedValid(v);
    MacInBytesSix(g);
    forall k | 0 <= k < 6
      ensures GroupValues(g)[k] == DigitPairs(v)[k]
    {
      RegroupedPair(v, k);
    }
    assert GroupValues(g) == DigitPairs(v);
  }

  /** Group `k` of the answer holds the `k`-th pair of characters of the value. */
  lemma RegroupedPair(v: string, k: nat)
    requires k < 6
    ensures Regrouped(v)[3 * k] == CopiedChar(v, 2 * k)
    ensures Regrouped(v)[3 * k + 1] == CopiedChar(v, 2 * k + 1)
  {
    Thirds(k);
    assert Regrouped(v)[3 * k] == RegroupChar(v, 3 * k);
    assert Regrouped(v)[3 * k + 1] == RegroupChar(v, 3 * k + 1);
  }

  /** The byte values of the six pairs of digits. */
  function DigitPairs(v: string): (r: seq<int>)
    requires |v| >= 12
    ensures |r| == 6
  {
    seq(6, k requires 0 <= k < 6 => PairByte(v[2 * k], v[2 * k + 1]))
  }

  /** A value of twelve hex digits written as gAPMacAddr is answered in colon form. */
  lemma ReadMacAfterWrite(fs: Fs, ini: string, v: string)
    requires ini in fs && OneLine(v)
    requires |v| >= 12 && forall i :: 0 <= i < 12 ==> IsHexDigit(v[i])
    ensures ReadMacAddress(WriteCfg(fs, ini, MacInIni.name, v, true).fs, ini)
            == Success(Name(MacAddress) + "=" + Regrouped(v))
  {
    IniNamesAreKeys(MacInIni);
    NamesAreKeys(MacAddress);
    ValueAfterWrite(fs, ini, MacInIni, v, true, Some(Name(MacAddress)));
    RegroupedValid(v);
  }

  /** A value written as one line is read back, after the answer's own name when it has
      one. */
  lemma ValueAfterWrite(fs: Fs, path: string, cmd: Command, value: string, ini: bool,
                        out: Option<string>)
    requires path in fs && IsKey(cmd.name) && (ini ==> EndFree(cmd.name))
    requires OneLine(value) && (out.Some? ==> '=' !in out.value)
    ensures var r := ReadCfg(WriteCfg(fs, path, cmd.name, value, ini).fs, path, cmd, out, false);
            var answer := if out.Some? then out.value else cmd.name;
            r == Success(answer + "=" + value) && '=' in r.text && AfterEq(r.text) == value
  {
    var answer := if out.Some? then out.value else cmd.name;
    ReadAfterWrite(fs[path], cmd.name, value, ini, cmd.dflt, out, false);
    assert (answer + "=" + value)[|answer|] == '=';
    AfterKeyEq(answer, value);
  }


  // ---------------------------------------------------------------------------
  // qsap_read_channel

  /** qsap_read_channel. `operating` is the channel the driver reports, `None` where the
      ioctl fails; it is asked only when the stored channel is AUTO_CHANNEL. */
  function ReadChannel(fs: Fs, conf: string, sdk: string, operating: Option<nat>): Response {
    var r := ReadCfg(fs, conf, CommandOf(Channel, sdk), None, false);
    if r.Failure? || '=' !in r.text || Atoi(AfterEq(r.text)) != AutoChannel then r
    else if operating.Some? then Success(Name(Channel) + "=0," + IntToString(operating.value))
    else Failure(Unknown)
  }

  /** A channel other than AUTO_CHANNEL is answered as stored; the automatic one with the
      channel in use after "0,". */
  lemma ReadChannelAfterWrite(fs: Fs, conf: string, sdk: string, ch: int, operating: Option<nat>)
    requires conf in fs
    ensures var r := ReadChannel(WriteCfg(fs, conf, Name(Channel), IntToString(ch), false).fs,
                                 conf, sdk, operating);
            r == if ch != AutoChannel then Success(Name(Channel) + "=" + IntToString(ch))
                 else if operating.Some? then Success(Name(Channel) + "=0," + IntToString(operating.value))
                 else Failure(Unknown)
  {
    var w := WriteCfg(fs, conf, Name(Channel), IntToString(ch), false).fs;
    NumberOneLine(ch);
    NamesAreKeys(Channel);
    ValueAfterWrite(fs, conf, CommandOf(Channel, sdk), IntToString(ch), false, None);
    var r := ReadCfg(w, conf, CommandOf(Channel, sdk), None, false);
    assert r.Success? && '=' in r.text && AfterEq(r.text) == IntToString(ch);
    AtoiOfIntToString(ch);
  }

  // ---------------------------------------------------------------------------
  // Auto shut-off time: minutes to the user, seconds in the ini file

  /** qsap_read_autoshutoff: the stored seconds, taken as an unsigned 32-bit number, in
      whole minutes; 0 when the value cannot be read. */
  function ReadAutoShutoff(fs: Fs, ini: string): Response {
    var v := ConfigValue(fs, ini, AutoShutOffInIni);
    var time := if v.Some? then (Atoi(v.value) % U32) / 60 else 0;
    Success(Name(AutoShutOffTime) + "=" + IntToString(time))
  }

  /** What a set of the time stores: the minutes in seconds. */
  function AutoShutoffStored(minutes: int): string {
    IntToString(minutes * 60)
  }

  /** A time set in minutes is read back in minutes while the seconds fit in 32 bits. */
  lemma AutoShutoffRoundTrip(fs: Fs, ini: string, minutes: int)
    requires ini in fs && 0 <= minutes * 60 < U32
    ensures ReadAutoShutoff(WriteCfg(fs, ini, AutoShutOffInIni.name, AutoShutoffStored(minutes), true).fs, ini)
            == Success(Name(AutoShutOffTime) + "=" + IntToString(minutes))
  {
    var v := AutoShutoffStored(minutes);
    NumberOneLine(minutes * 60);
    IniNamesAreKeys(AutoShutOffInIni);
    ConfigValueAfterWrite(fs, ini, AutoShutOffInIni, v, true);
    AtoiOfIntToString(minutes * 60);
    MinutesBack(minutes);
  }

  lemma MinutesBack(m: int)
    requires 0 <= m * 60 < U32
    ensures ((m * 60) % U32) / 60 == m
  {
    assert (m * 60) % U32 == m * 60;
  }
}
