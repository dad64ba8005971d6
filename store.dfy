/** The files the command engine works on: the hostapd configuration file, the driver's
    ini file, the default copies of both and the MAC-list files, each a sequence of lines
    under its path. A path that is not in the map is a file fopen() cannot open. Writing
    goes through a temporary file renamed over the original, which here is one update
    of the map. */
module Store {
  import opened Text
  import opened Protocol
  import opened LineStore

  type Fs = map<string, Lines>

  /** An entry of the command tables: the name of the configuration parameter and the
      value a read answers when the file has no entry for it. */
  datatype Command = Command(name: string, dflt: Option<string>)

  /** The files after an operation, and the line it answers with. */
  datatype Step = Step(fs: Fs, resp: Response)

  /** qsap_read_cfg: the file opens or the path is unavailable; what the line read means
      (the first entry of the key, comments skipped unless asked for) is proved about
      `ReadLines` by `LineStore.FindEntryMeans` and `LineStore.ReadAfterWrite`. */
  function ReadCfg(fs: Fs, path: string, cmd: Command, outName: Option<string>,
                   withComments: bool): (r: Response)
    ensures path !in fs ==> r == Failure(ResUnavailable)
    ensures path in fs ==> r == ReadLines(fs[path], cmd.name, cmd.dflt, outName, withComments)
  {
    if path !in fs then Failure(ResUnavailable)
    else ReadLines(fs[path], cmd.name, cmd.dflt, outName, withComments)
  }

  /** qsap_write_cfg */
  function WriteCfg(fs: Fs, path: string, key: string, value: string, ini: bool): (r: Step)
    ensures path !in fs ==> r == Step(fs, Failure(ResUnavailable))
    ensures path in fs ==> r.resp == Ok && r.fs.Keys == fs.Keys
  {
    if path !in fs then Step(fs, Failure(ResUnavailable))
    else Step(fs[path := WriteLines(fs[path], key, value, ini)], Ok)
  }

  /** qsap_change_cfg: `None` is its eERR_UNKNOWN; `enable` is a status other than DISABLE. */
  function ChangeCfg(fs: Fs, path: string, key: string, enable: bool): (r: Option<Fs>)
    ensures r.None? <==> path !in fs
    ensures r.Some? ==> r.value.Keys == fs.Keys
  {
    if path !in fs then None
    else Some(fs[path := ToggleLines(fs[path], key, enable)])
  }

  /** A run of qsap_change_cfg calls on one file that stops at the first failure. The
      file cannot disappear between two calls, so either the first fails and nothing
      changes, or all of them succeed. */
  function ChangeAllCfg(fs: Fs, path: string, ts: seq<Toggle>): (r: Option<Fs>)
    ensures r.None? <==> ts != [] && path !in fs
  {
    if ts == [] then Some(fs)
    else if path !in fs then None
    else Some(fs[path := ToggleAll(fs[path], ts)])
  }

  /** wifi_qsap_reset_to_default: `None` when the default file cannot be opened;
      otherwise the configuration file, created if need be, becomes a copy of it. */
  function ResetToDefault(fs: Fs, path: string, dfltPath: string): (r: Option<Fs>)
    ensures r.None? <==> dfltPath !in fs
    ensures r.Some? ==> path in r.value && r.value[path] == fs[dfltPath]
    ensures r.Some? ==> forall p :: p in fs && p != path ==> p in r.value && r.value[p] == fs[p]
  {
    if dfltPath !in fs then None else Some(fs[path := fs[dfltPath]])
  }

  /** The files the engine works on, changed in place by its operations. */
  class ConfigFiles {
    var fs: Fs

    constructor (init: Fs)
      ensures fs == init
    {
      fs := init;
    }

    /** qsap_read_cfg */
    method Read(path: string, cmd: Command, outName: Option<string>, withComments: bool)
      returns (resp: Response)
      ensures resp == ReadCfg(fs, path, cmd, outName, withComments)
    {
      if path !in fs {
        return Failure(ResUnavailable);
      }
      var lines := fs[path];
      var idx := ReadScan(lines, cmd.name, withComments);
      if idx.Some? {
        var seen := TrimCrLf(Uncomment(lines[idx.value]));
        if outName.Some? {
          resp := Success(outName.value + "=" + AfterEq(seen));
        } else {
          resp := Success(seen);
        }
      } else if cmd.dflt.Some? {
        var name := if outName.Some? then outName.value else cmd.name;
        resp := Success(name + "=" + cmd.dflt.value);
      } else {
        resp := Failure(FeatureNotEnabled);
      }
    }

    /** qsap_write_cfg */
    method Write(path: string, key: string, value: string, ini: bool) returns (resp: Response)
      modifies this
      ensures fs == WriteCfg(old(fs), path, key, value, ini).fs
      ensures resp == WriteCfg(old(fs), path, key, value, ini).resp
    {
      if path !in fs {
        return Failure(ResUnavailable);
      }
      var out := WriteRewrite(fs[path], key, value, ini);
      fs := fs[path := out];
      resp := Ok;
    }

    /** qsap_change_cfg: `ok` is false where the C function returns eERR_UNKNOWN. */
    method Change(path: string, key: string, enable: bool) returns (ok: bool)
      modifies this
      ensures ok == ChangeCfg(old(fs), path, key, enable).Some?
      ensures fs == if ok then ChangeCfg(old(fs), path, key, enable).value else old(fs)
    {
      if path !in fs {
        return false;
      }
      var out := ToggleRewrite(fs[path], key, enable);
      fs := fs[path := out];
      ok := true;
    }

    /** The calls to qsap_change_cfg in a row, up to the first that fails. */
    method ChangeAll(path: string, ts: seq<Toggle>) returns (ok: bool)
      modifies this
      ensures ok == ChangeAllCfg(old(fs), path, ts).Some?
      ensures fs == if ok then ChangeAllCfg(old(fs), path, ts).value else old(fs)
    {
      var i := 0;
      while i < |ts|
        invariant 0 <= i <= |ts|
        invariant i > 0 ==> path in old(fs)
        invariant ChangeAllCfg(old(fs), path, ts[..i]).Some?
        invariant fs == ChangeAllCfg(old(fs), path, ts[..i]).value
      {
        assert ts[..i + 1][..i] == ts[..i];
        var done := Change(path, ts[i].key, ts[i].enable);
        if !done {
          return false;
        }
        assert path in old(fs);
        assert ToggleAll(old(fs)[path], ts[..i + 1])
            == ToggleLines(ToggleAll(old(fs)[path], ts[..i]), ts[i].key, ts[i].enable);
        i := i + 1;
      }
      assert ts[..i] == ts;
      ok := true;
    }

    /** wifi_qsap_reset_to_default: `ok` is false where it returns eERR_FILE_OPEN. */
    method Reset(path: string, dfltPath: string) returns (ok: bool)
      modifies this
      ensures ok == ResetToDefault(old(fs), path, dfltPath).Some?
      ensures fs == if ok then ResetToDefault(old(fs), path, dfltPath).value else old(fs)
    {
      if dfltPath !in fs {
        return false;
      }
      var out := CopyLines(fs[dfltPath]);
      fs := fs[path := out];
      ok := true;
    }
  }
}
