/** The setters that keep the operating mode consistent with what is set beside it:
    qsap_set_channel moves hw_mode to the band of the channel, qsap_set_operating_mode
    sets the flags an operating mode stands for, and qsap_set_data_rate refuses a rate
    index the current mode does not have. */
module Modes {
  import opened Text
  import opened Protocol
  import opened LineStore
  import opened Store
  import opened Tables
  import opened Radio

  /** The next write of a chain of writes to one file: skipped when `cond` is false or an
      earlier write of the chain failed. */
  function WriteWhen(s: Step, cond: bool, path: string, key: string, value: string): Step {
    if s.resp.Failure? || !cond then s else WriteCfg(s.fs, path, key, value, false)
  }

  /** The answer of a setter the command handler reports as success or ERR_UNKNOWN. */
  function Reported(s: Step): Step {
    Step(s.fs, if s.resp.Success? then Ok else Failure(Unknown))
  }

  // ---------------------------------------------------------------------------
  // qsap_set_channel

  /** The operating mode a channel leaves: A above channel 14, B for channels 12 to 14
      unless the mode is B already, G in place of A for the channels up to 14, and the
      mode as it was otherwise. */
  function ModeForChannel(mode: string, ch: int): string {
    if ch > 14 then HwModes[HwModeA]
    else if 12 <= ch && mode != HwModes[HwModeB] then HwModes[HwModeB]
    else if mode == HwModes[HwModeA] then HwModes[HwModeG]
    else mode
  }

  /** The three conditional writes of hw_mode in qsap_set_channel, each tested against
      the mode read before any of them. */
  function ChannelModeWrites(fs: Fs, conf: string, mode: string, ch: int): Step {
    var s1 := WriteWhen(Step(fs, Ok), mode == HwModes[HwModeA] && ch <= 14,
                        conf, Name(HwMode), HwModes[HwModeG]);
    var s2 := WriteWhen(s1, mode != HwModes[HwModeB] && 12 <= ch <= 14,
                        conf, Name(HwMode), HwModes[HwModeB]);
    WriteWhen(s2, ch > 14, conf, Name(HwMode), HwModes[HwModeA])
  }

  /** qsap_set_channel: ERR_UNKNOWN when the mode cannot be read; otherwise the mode is
      moved to the band of the channel and the channel written. */
  function ChannelSet(fs: Fs, conf: string, sdk: string, ch: int): Step {
    match ConfigValue(fs, conf, CommandOf(HwMode, sdk))
    case None => Step(fs, Failure(Unknown))
    case Some(mode) =>
      var s := ChannelModeWrites(fs, conf, mode, ch);
      Reported(WriteWhen(s, true, conf, Name(Channel), IntToString(ch)))
  }

  /** The three mode writes leave the mode of `ModeForChannel`. */
  lemma ChannelModeWritesMeans(fs: Fs, conf: string, sdk: string, mode: string, ch: int)
    requires conf in fs && ConfigValue(fs, conf, CommandOf(HwMode, sdk)) == Some(mode)
    ensures var s := ChannelModeWrites(fs, conf, mode, ch);
            s.resp == Ok && conf in s.fs
            && ConfigValue(s.fs, conf, CommandOf(HwMode, sdk)) == Some(ModeForChannel(mode, ch))
  {
    var hw := CommandOf(HwMode, sdk);
    NamesAreKeys(HwMode);
    BandModesOneLine();
    var s1 := WriteWhen(Step(fs, Ok), mode == HwModes[HwModeA] && ch <= 14,
                        conf, Name(HwMode), HwModes[HwModeG]);
    var s2 := WriteWhen(s1, mode != HwModes[HwModeB] && 12 <= ch <= 14,
                        conf, Name(HwMode), HwModes[HwModeB]);
    assert s1.resp == Ok && conf in s1.fs;
    if mode == HwModes[HwModeA] && ch <= 14 {
      ConfigValueAfterWrite(fs, conf, hw, HwModes[HwModeG], false);
    }
    assert s2.resp == Ok && conf in s2.fs;
    if mode != HwModes[HwModeB] && 12 <= ch <= 14 {
      ConfigValueAfterWrite(s1.fs, conf, hw, HwModes[HwModeB], false);
    }
    if ch > 14 {
      ConfigValueAfterWrite(s2.fs, conf, hw, HwModes[HwModeA], false);
    }
  }

  lemma BandModesOneLine()
    ensures OneLine(HwModes[HwModeG]) && OneLine(HwModes[HwModeB]) && OneLine(HwModes[HwModeA])
  {
  }

  /** A set of the channel answers success and leaves the mode of `ModeForChannel` and
      the channel given; when the mode cannot be read it answers ERR_UNKNOWN and changes
      nothing. */
  lemma ChannelSetMeans(fs: Fs, conf: string, sdk: string, ch: int)
    ensures var mode := ConfigValue(fs, conf, CommandOf(HwMode, sdk));
            var r := ChannelSet(fs, conf, sdk, ch);
            (mode.None? ==> r == Step(fs, Failure(Unknown)))
            && (mode.Some? ==>
                  r.resp == Ok
                  && ConfigValue(r.fs, conf, CommandOf(HwMode, sdk)) == Some(ModeForChannel(mode.value, ch))
                  && ConfigValue(r.fs, conf, CommandOf(Channel, sdk)) == Some(IntToString(ch)))
  {
    var hw := CommandOf(HwMode, sdk);
    if ConfigValue(fs, conf, hw).Some? {
      var mode := ConfigValue(fs, conf, hw).value;
      var s := ChannelModeWrites(fs, conf, mode, ch);
      ChannelModeWritesMeans(fs, conf, sdk, mode, ch);
      NamesAreKeys(HwMode);
      NamesAreKeys(Channel);
      NumberOneLine(ch);
      WriteReadFrame(s.fs, conf, Name(Channel), IntToString(ch), false, conf, hw, None, false);
      ConfigValueAfterWrite(s.fs, conf, CommandOf(Channel, sdk), IntToString(ch), false);
    }
  }

  /** A set of the channel changes no read of any other key. */
  lemma ChannelSetFrame(fs: Fs, conf: string, sdk: string, ch: int,
                        p: string, cmd: Command, out: Option<string>, wc: bool)
    requires IsKey(cmd.name) && cmd.name != Name(HwMode) && cmd.name != Name(Channel)
    ensures ReadCfg(ChannelSet(fs, conf, sdk, ch).fs, p, cmd, out, wc) == ReadCfg(fs, p, cmd, out, wc)
  {
    var hw := CommandOf(HwMode, sdk);
    NamesAreKeys(HwMode);
    NamesAreKeys(Channel);
    if ConfigValue(fs, conf, hw).Some? {
      var mode := ConfigValue(fs, conf, hw).value;
      var s1 := WriteWhen(Step(fs, Ok), mode == HwModes[HwModeA] && ch <= 14,
                          conf, Name(HwMode), HwModes[HwModeG]);
      var s2 := WriteWhen(s1, mode != HwModes[HwModeB] && 12 <= ch <= 14,
                          conf, Name(HwMode), HwModes[HwModeB]);
      var s3 := ChannelModeWrites(fs, conf, mode, ch);
      WriteReadFrame(fs, conf, Name(HwMode), HwModes[HwModeG], false, p, cmd, out, wc);
      WriteReadFrame(s1.fs, conf, Name(HwMode), HwModes[HwModeB], false, p, cmd, out, wc);
      WriteReadFrame(s2.fs, conf, Name(HwMode), HwModes[HwModeA], false, p, cmd, out, wc);
      WriteReadFrame(s3.fs, conf, Name(Channel), IntToString(ch), false, p, cmd, out, wc);
    }
  }

  /** qsap_set_channel on the files in place. */
  method SetChannel(files: ConfigFiles, conf: string, sdk: string, ch: int) returns (resp: Response)
    modifies files
    ensures files.fs == ChannelSet(old(files.fs), conf, sdk, ch).fs
    ensures resp == ChannelSet(old(files.fs), conf, sdk, ch).resp
  {
    ghost var fs0 := files.fs;
    var mode := GetConfigValue(files, conf, CommandOf(HwMode, sdk));
    if mode.None? {
      return Failure(Unknown);
    }
    ghost var s1 := WriteWhen(Step(fs0, Ok), mode.value == HwModes[HwModeA] && ch <= 14,
                              conf, Name(HwMode), HwModes[HwModeG]);
    ghost var s2 := WriteWhen(s1, mode.value != HwModes[HwModeB] && 12 <= ch <= 14,
                              conf, Name(HwMode), HwModes[HwModeB]);
    ghost var s3 := ChannelModeWrites(fs0, conf, mode.value, ch);
    if mode.value == HwModes[HwModeA] && ch <= 14 {
      var w := files.Write(conf, Name(HwMode), HwModes[HwModeG], false);
      if w.Failure? {
        return Failure(Unknown);
      }
    }
    assert files.fs == s1.fs && s1.resp == Ok;
    if mode.value != HwModes[HwModeB] && 12 <= ch <= 14 {
      var w := files.Write(conf, Name(HwMode), HwModes[HwModeB], false);
      if w.Failure? {
        return Failure(Unknown);
      }
    }
    assert files.fs == s2.fs && s2.resp == Ok;
    if ch > 14 {
      var w := files.Write(conf, Name(HwMode), HwModes[HwModeA], false);
      if w.Failure? {
        return Failure(Unknown);
      }
    }
    assert files.fs == s3.fs && s3.resp == Ok;
    var w := files.Write(conf, Name(Channel), IntToString(ch), false);
    resp := if w.Success? then Ok else Failure(Unknown);
  }

  // ---------------------------------------------------------------------------
  // qsap_set_operating_mode

  /** A qsap_change_cfg call whose result is ignored. */
  function ChangeOrKeep(fs: Fs, path: string, key: string, enable: bool): Fs {
    match ChangeCfg(fs, path, key, enable)
    case None => fs
    case Some(f) => f
  }

  /** The mode qsap_set_operating_mode stores: "g" for G-only, N-only and N, which it
      tells apart by basic_rates, require_ht and ieee80211n, and the mode's name otherwise. */
  function StoredMode(mode: int, pmode: string): string {
    if mode == HwModeGOnly || mode == HwModeNOnly || mode == HwModeN then HwModes[HwModeG]
    else pmode
  }

  /** Whether a mode uses 802.11n. */
  predicate UsesHt(mode: int) {
    mode == HwModeNOnly || mode == HwModeN || mode == HwModeA
  }

  /** The entries qsap_set_operating_mode sets before it writes the mode: basic_rates
      and require_ht commented out and ieee80211n=0, then basic_rates uncommented for
      G-only, require_ht uncommented and ieee80211n=1 for N-only, ieee80211n=1 for N and A,
      ieee80211n=0 again for B. */
  function ModeFlags(fs: Fs, conf: string, mode: int): Fs {
    var fs1 := ChangeOrKeep(fs, conf, Name(BasicRates), false);
    var fs2 := ChangeOrKeep(fs1, conf, Name(RequireHt), false);
    var fs3 := WriteCfg(fs2, conf, Name(Ieee80211n), "0", false).fs;
    if mode == HwModeGOnly then ChangeOrKeep(fs3, conf, Name(BasicRates), true)
    else if mode == HwModeNOnly then
      WriteCfg(ChangeOrKeep(fs3, conf, Name(RequireHt), true), conf, Name(Ieee80211n), "1", false).fs
    else if mode == HwModeN || mode == HwModeA then WriteCfg(fs3, conf, Name(Ieee80211n), "1", false).fs
    else if mode == HwModeB then WriteCfg(fs3, conf, Name(Ieee80211n), "0", false).fs
    else fs3
  }

  /** qsap_set_operating_mode, with the answer the command handler gives it. */
  function OperatingModeSet(fs: Fs, conf: string, mode: int, pmode: string): Step {
    Reported(WriteCfg(ModeFlags(fs, conf, mode), conf, Name(HwMode), StoredMode(mode, pmode), false))
  }

  /** What a read that skips commented lines answers for a key all of whose entries are
      commented out. */
  function DisabledRead(cmd: Command): Response {
    if cmd.dflt.Some? then Success(cmd.name + "=" + cmd.dflt.value) else Failure(FeatureNotEnabled)
  }

  /** The flags of `ModeFlags` on the lines of one file, for the keys `b` (basic_rates),
      `h` (require_ht) and `n` (ieee80211n). */
  function FlagLines(lines: Lines, b: string, h: string, n: string, mode: int): Lines {
    var l3 := BaseLines(lines, b, h, n);
    if mode == HwModeGOnly then ToggleLines(l3, b, true)
    else if mode == HwModeNOnly then WriteLines(ToggleLines(l3, h, true), n, "1", false)
    else if mode == HwModeN || mode == HwModeA then WriteLines(l3, n, "1", false)
    else if mode == HwModeB then WriteLines(l3, n, "0", false)
    else l3
  }

  /** When the configuration file opens, the flags only change its lines. */
  lemma ModeFlagsLines(fs: Fs, conf: string, mode: int)
    requires conf in fs
    ensures ModeFlags(fs, conf, mode)
            == fs[conf := FlagLines(fs[conf], Name(BasicRates), Name(RequireHt), Name(Ieee80211n), mode)]
  {
    var b, h, n := Name(BasicRates), Name(RequireHt), Name(Ieee80211n);
    var fs1 := ChangeOrKeep(fs, conf, b, false);
    var fs2 := ChangeOrKeep(fs1, conf, h, false);
    var fs3 := WriteCfg(fs2, conf, n, "0", false).fs;
    var l3 := BaseLines(fs[conf], b, h, n);
    assert fs3 == fs[conf := l3] by {
      UpdateTwice(fs, conf, ToggleLines(fs[conf], b, false), ToggleLines(ToggleLines(fs[conf], b, false), h, false));
      UpdateTwice(fs, conf, ToggleLines(ToggleLines(fs[conf], b, false), h, false), l3);
    }
    if mode == HwModeNOnly {
      UpdateTwice(fs, conf, l3, ToggleLines(l3, h, true));
      UpdateTwice(fs, conf, ToggleLines(l3, h, true), WriteLines(ToggleLines(l3, h, true), n, "1", false));
    } else if mode == HwModeGOnly {
      UpdateTwice(fs, conf, l3, ToggleLines(l3, b, true));
    } else if mode == HwModeN || mode == HwModeA || mode == HwModeB {
      var v := if mode == HwModeB then "0" else "1";
      UpdateTwice(fs, conf, l3, WriteLines(l3, n, v, false));
    }
  }

  lemma UpdateTwice(fs: Fs, path: string, a: Lines, b: Lines)
    ensures fs[path := a][path := b] == fs[path := b]
  {
  }

  /** The lines every mode starts from: both flags commented out and ieee80211n=0. */
  function BaseLines(lines: Lines, b: string, h: string, n: string): Lines {
    WriteLines(ToggleLines(ToggleLines(lines, b, false), h, false), n, "0", false)
  }

  lemma DigitsOneLine()
    ensures OneLine("0") && OneLine("1")
  {
  }

  /** The flags, on the lines: ieee80211n is 1 exactly for the modes that use 802.11n;
      basic_rates is in force, with the value it had, only for G-only, and require_ht
      only for N-only. */
  lemma FlagLinesMeans(lines: Lines, b: string, h: string, n: string,
                       db: Option<string>, dh: Option<string>, dn: Option<string>, mode: int)
    requires IsKey(b) && IsKey(h) && IsKey(n) && b != h && b != n && h != n
    ensures var f := FlagLines(lines, b, h, n, mode);
            ReadLines(f, n, dn, None, false) == Success(n + "=" + (if UsesHt(mode) then "1" else "0"))
            && ReadLines(f, b, db, None, false)
               == (if mode == HwModeGOnly then ReadLines(lines, b, db, None, true) else DisabledRead(Command(b, db)))
            && ReadLines(f, h, dh, None, false)
               == (if mode == HwModeNOnly then ReadLines(lines, h, dh, None, true) else DisabledRead(Command(h, dh)))
  {
    var l3 := BaseLines(lines, b, h, n);
    FlagBaseOff(lines, b, h, n, db, dh);
    if mode == HwModeGOnly {
      FlagBaseN(lines, b, h, n, dn);
      FlagBaseKept(lines, b, h, n, db, dh);
      ReadAfterEnable(l3, b, db, None);
      ToggleFrame(l3, b, h, true, dh, None, false);
      ToggleFrame(l3, b, n, true, dn, None, false);
    } else if mode == HwModeNOnly {
      FlagsNOnly(lines, b, h, n, db, dh, dn);
    } else if mode == HwModeN || mode == HwModeA || mode == HwModeB {
      var v := if mode == HwModeB then "0" else "1";
      DigitsOneLine();
      WriteFrame(l3, n, b, v, false, db, None, false);
      WriteFrame(l3, n, h, v, false, dh, None, false);
      ReadAfterWrite(l3, n, v, false, dn, None, false);
    } else {
      FlagBaseN(lines, b, h, n, dn);
    }
  }

  /** The flags of N-only: require_ht uncommented and ieee80211n=1. */
  lemma FlagsNOnly(lines: Lines, b: string, h: string, n: string,
                   db: Option<string>, dh: Option<string>, dn: Option<string>)
    requires IsKey(b) && IsKey(h) && IsKey(n) && b != h && b != n && h != n
    ensures var l3 := BaseLines(lines, b, h, n);
            var f := WriteLines(ToggleLines(l3, h, true), n, "1", false);
            ReadLines(f, n, dn, None, false) == Success(n + "=" + "1")
            && ReadLines(f, b, db, None, false) == ReadLines(l3, b, db, None, false)
            && ReadLines(f, h, dh, None, false) == ReadLines(lines, h, dh, None, true)
  {
    var l3 := BaseLines(lines, b, h, n);
    var l35 := ToggleLines(l3, h, true);
    FlagBaseKept(lines, b, h, n, db, dh);
    ReadAfterEnable(l3, h, dh, None);
    ToggleFrame(l3, h, b, true, db, None, false);
    WriteFrame(l35, n, b, "1", false, db, None, false);
    WriteFrame(l35, n, h, "1", false, dh, None, false);
    DigitsOneLine();
    ReadAfterWrite(l35, n, "1", false, dn, None, false);
  }

  lemma FlagBaseN(lines: Lines, b: string, h: string, n: string, dn: Option<string>)
    requires IsKey(n)
    ensures ReadLines(BaseLines(lines, b, h, n), n, dn, None, false) == Success(n + "=" + "0")
  {
    DigitsOneLine();
    ReadAfterWrite(ToggleLines(ToggleLines(lines, b, false), h, false), n, "0", false, dn, None, false);
  }

  /** In the starting lines both flags are commented out. */
  lemma FlagBaseOff(lines: Lines, b: string, h: string, n: string, db: Option<string>, dh: Option<string>)
    requires IsKey(b) && IsKey(h) && IsKey(n) && b != h && b != n && h != n
    ensures ReadLines(BaseLines(lines, b, h, n), b, db, None, false) == DisabledRead(Command(b, db))
    ensures ReadLines(BaseLines(lines, b, h, n), h, dh, None, false) == DisabledRead(Command(h, dh))
  {
    var l1 := ToggleLines(lines, b, false);
    var l2 := ToggleLines(l1, h, false);
    ReadAfterDisable(lines, b, db, None);
    ReadAfterDisable(l1, h, dh, None);
    ToggleFrame(l1, h, b, false, db, None, false);
    WriteFrame(l2, n, b, "0", false, db, None, false);
    WriteFrame(l2, n, h, "0", false, dh, None, false);
  }

  /** In the starting lines both flags keep their values for a read through comments. */
  lemma FlagBaseKept(lines: Lines, b: string, h: string, n: string, db: Option<string>, dh: Option<string>)
    requires IsKey(b) && IsKey(h) && IsKey(n) && b != h && b != n && h != n
    ensures ReadLines(BaseLines(lines, b, h, n), b, db, None, true) == ReadLines(lines, b, db, None, true)
    ensures ReadLines(BaseLines(lines, b, h, n), h, dh, None, true) == ReadLines(lines, h, dh, None, true)
  {
    var l1 := ToggleLines(lines, b, false);
    var l2 := ToggleLines(l1, h, false);
    ToggleKeepsValue(lines, b, false, db, None);
    ToggleFrame(lines, b, h, false, dh, None, true);
    ToggleKeepsValue(l1, h, false, dh, None);
    ToggleFrame(l1, h, b, false, db, None, true);
    WriteFrame(l2, n, b, "0", false, db, None, true);
    WriteFrame(l2, n, h, "0", false, dh, None, true);
  }

  /** A mode of the table is set with success: the mode is read back as stored,
      ieee80211n is 1 exactly for the modes that use 802.11n, basic_rates is in force,
      with the value it had, only for G-only, and require_ht only for N-only. */
  lemma OperatingModeMeans(fs: Fs, conf: string, sdk: string, mode: int)
    requires conf in fs && 0 <= mode < |HwModes|
    ensures var r := OperatingModeSet(fs, conf, mode, HwModes[mode]);
            var basic := CommandOf(BasicRates, sdk);
            var ht := CommandOf(RequireHt, sdk);
            r.resp == Ok
            && ConfigValue(r.fs, conf, CommandOf(HwMode, sdk)) == Some(StoredMode(mode, HwModes[mode]))
            && ConfigValue(r.fs, conf, CommandOf(Ieee80211n, sdk)) == Some(if UsesHt(mode) then "1" else "0")
            && ReadCfg(r.fs, conf, basic, None, false)
               == (if mode == HwModeGOnly then ReadCfg(fs, conf, basic, None, true) else DisabledRead(basic))
            && ReadCfg(r.fs, conf, ht, None, false)
               == (if mode == HwModeNOnly then ReadCfg(fs, conf, ht, None, true) else DisabledRead(ht))
  {
    var fs4 := ModeFlags(fs, conf, mode);
    var stored := StoredMode(mode, HwModes[mode]);
    ModeFlagsHold(fs, conf, sdk, mode);
    NamesAreKeys(HwMode);
    NamesAreKeys(Ieee80211n);
    NamesAreKeys(BasicRates);
    NamesAreKeys(RequireHt);
    StoredModeOneLine(mode);
    FlagNamesDistinct();
    ConfigValueAfterWrite(fs4, conf, CommandOf(HwMode, sdk), stored, false);
    WriteReadFrame(fs4, conf, Name(HwMode), stored, false, conf, CommandOf(Ieee80211n, sdk), None, false);
    WriteReadFrame(fs4, conf, Name(HwMode), stored, false, conf, CommandOf(BasicRates, sdk), None, false);
    WriteReadFrame(fs4, conf, Name(HwMode), stored, false, conf, CommandOf(RequireHt, sdk), None, false);
  }

  lemma FlagNamesDistinct()
    ensures Name(BasicRates) != Name(RequireHt) && Name(BasicRates) != Name(Ieee80211n)
    ensures Name(RequireHt) != Name(Ieee80211n)
    ensures Name(HwMode) != Name(BasicRates) && Name(HwMode) != Name(RequireHt)
    ensures Name(HwMode) != Name(Ieee80211n)
  {
    assert Name(BasicRates)[0] == 'b' && Name(RequireHt)[0] == 'r' && Name(Ieee80211n)[0] == 'i';
    assert Name(HwMode)[0] == 'h';
  }

  lemma StoredModeOneLine(mode: int)
    requires 0 <= mode < |HwModes|
    ensures OneLine(StoredMode(mode, HwModes[mode]))
  {
  }

  lemma ModeFlagsHold(fs: Fs, conf: string, sdk: string, mode: int)
    requires conf in fs
    ensures ModeFlagsRead(fs, conf, sdk, mode)
  {
    var basic := CommandOf(BasicRates, sdk);
    var ht := CommandOf(RequireHt, sdk);
    var n := CommandOf(Ieee80211n, sdk);
    NamesAreKeys(Ieee80211n);
    NamesAreKeys(BasicRates);
    NamesAreKeys(RequireHt);
    ModeFlagsLines(fs, conf, mode);
    FlagNamesDistinct();
    FlagLinesMeans(fs[conf], basic.name, ht.name, n.name, basic.dflt, ht.dflt, n.dflt, mode);
    var v := if UsesHt(mode) then "1" else "0";
    assert (n.name + "=" + v)[|n.name|] == '=';
    AfterKeyEq(n.name, v);
  }

  /** The reads `OperatingModeMeans` states, on the files before the mode is written. */
  predicate ModeFlagsRead(fs: Fs, conf: string, sdk: string, mode: int) {
    var fs4 := ModeFlags(fs, conf, mode);
    var basic := CommandOf(BasicRates, sdk);
    var ht := CommandOf(RequireHt, sdk);
    conf in fs4
    && ConfigValue(fs4, conf, CommandOf(Ieee80211n, sdk)) == Some(if UsesHt(mode) then "1" else "0")
    && ReadCfg(fs4, conf, basic, None, false)
       == (if mode == HwModeGOnly then ReadCfg(fs, conf, basic, None, true) else DisabledRead(basic))
    && ReadCfg(fs4, conf, ht, None, false)
       == (if mode == HwModeNOnly then ReadCfg(fs, conf, ht, None, true) else DisabledRead(ht))
  }

  /** qsap_set_operating_mode on the files in place; `pmode` is the name the user gave. */
  method SetOperatingMode(files: ConfigFiles, conf: string, mode: int, pmode: string)
    returns (resp: Response)
    modifies files
    ensures files.fs == OperatingModeSet(old(files.fs), conf, mode, pmode).fs
    ensures resp == OperatingModeSet(old(files.fs), conf, mode, pmode).resp
  {
    var _ := files.Change(conf, Name(BasicRates), false);
    var _ := files.Change(conf, Name(RequireHt), false);
    var _ := files.Write(conf, Name(Ieee80211n), "0", false);
    if mode == HwModeGOnly {
      var _ := files.Change(conf, Name(BasicRates), true);
    } else if mode == HwModeNOnly {
      var _ := files.Change(conf, Name(RequireHt), true);
      var _ := files.Write(conf, Name(Ieee80211n), "1", false);
    } else if mode == HwModeN || mode == HwModeA {
      var _ := files.Write(conf, Name(Ieee80211n), "1", false);
    } else if mode == HwModeB {
      var _ := files.Write(conf, Name(Ieee80211n), "0", false);
    }
    var stored := pmode;
    if mode == HwModeGOnly || mode == HwModeNOnly || mode == HwModeN {
      stored := HwModes[HwModeG];
    }
    var w := files.Write(conf, Name(HwMode), stored, false);
    resp := if w.Success? then Ok else Failure(Unknown);
  }

  // ---------------------------------------------------------------------------
  // qsap_set_data_rate

  /** The rate indexes a mode has: at most B_MODE_MAX_DATA_RATE_IDX in B, at most
      G_ONLY_MODE_MAX_DATA_RATE_IDX in G and G-only, any valid one otherwise. */
  predicate RateFitsMode(h: Header, mode: string, idx: int) {
    (mode == HwModes[HwModeB] ==> idx <= h.bMaxRateIdx)
    && (mode == HwModes[HwModeG] || mode == HwModes[HwModeGOnly] ==> idx <= h.gMaxRateIdx)
  }

  /** qsap_set_data_rate: ERR_UNKNOWN for an invalid index, an unreadable mode or an
      index the mode does not have; otherwise the answer of writing gFixedRate to the
      ini file. */
  function DataRateSet(fs: Fs, conf: string, ini: string, h: Header, idx: int): Step {
    if !h.validDataRateIdx(idx) then Step(fs, Failure(Unknown))
    else
      match ConfigValue(fs, conf, CommandOf(HwMode, h.sdkVersion))
      case None => Step(fs, Failure(Unknown))
      case Some(mode) =>
        if (mode == HwModes[HwModeB] && idx > h.bMaxRateIdx)
           || ((mode == HwModes[HwModeG] || mode == HwModes[HwModeGOnly]) && idx > h.gMaxRateIdx)
        then Step(fs, Failure(Unknown))
        else WriteCfg(fs, ini, DataRateInIni.name, IntToString(idx), true)
  }

  /** A rate is set exactly when the index is valid, the mode can be read, the mode has
      the index and the ini file opens; it is then read back as data_rate. Otherwise
      nothing changes. */
  lemma DataRateSetMeans(fs: Fs, conf: string, ini: string, h: Header, idx: int)
    ensures var mode := ConfigValue(fs, conf, CommandOf(HwMode, h.sdkVersion));
            var r := DataRateSet(fs, conf, ini, h, idx);
            (r.resp == Ok
             <==> h.validDataRateIdx(idx) && mode.Some? && RateFitsMode(h, mode.value, idx) && ini in fs)
            && (r.resp == Ok ==>
                  ReadCfg(r.fs, ini, DataRateInIni, Some(Name(DataRate)), false)
                  == Success(Name(DataRate) + "=" + IntToString(idx)))
            && (r.resp != Ok ==> r.fs == fs)
  {
    var r := DataRateSet(fs, conf, ini, h, idx);
    if r.resp == Ok {
      IniNamesAreKeys(DataRateInIni);
      NamesAreKeys(DataRate);
      NumberOneLine(idx);
      ValueAfterWrite(fs, ini, DataRateInIni, IntToString(idx), true, Some(Name(DataRate)));
    }
  }

  /** qsap_set_data_rate on the files in place. */
  method SetDataRate(files: ConfigFiles, conf: string, ini: string, h: Header, idx: int)
    returns (resp: Response)
    modifies files
    ensures files.fs == DataRateSet(old(files.fs), conf, ini, h, idx).fs
    ensures resp == DataRateSet(old(files.fs), conf, ini, h, idx).resp
  {
    if !h.validDataRateIdx(idx) {
      return Failure(Unknown);
    }
    var mode := GetConfigValue(files, conf, CommandOf(HwMode, h.sdkVersion));
    if mode.None? {
      return Failure(Unknown);
    }
    if (mode.value == HwModes[HwModeB] && idx > h.bMaxRateIdx)
       || ((mode.value == HwModes[HwModeG] || mode.value == HwModes[HwModeGOnly]) && idx > h.gMaxRateIdx) {
      return Failure(Unknown);
    }
    resp := files.Write(ini, DataRateInIni.name, IntToString(idx), true);
  }
}
