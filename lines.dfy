/** The line store behind qsap_read_cfg, qsap_write_cfg and qsap_change_cfg: a
    configuration file is a sequence of lines (each stored without its '\n'); a line
    is an entry `key=value`, possibly commented out by a leading '#'. The functions
    here say what each operation computes from the old lines; the methods are the
    line-by-line loops of the C code, proved to compute exactly that. */
module LineStore {
  import opened Text
  import opened Protocol

  type Lines = seq<string>

  predicate IsCommented(line: string) { line != [] && line[0] == '#' }

  /** The line with one leading '#' removed, if it has one. */
  function Uncomment(line: string): string {
    if IsCommented(line) then line[1..] else line
  }

  /** `line` is an entry of `key`: it starts with the key and '=' follows at once
      (`!strncmp(pline, name, len) && pline[len] == '='`). */
  predicate KeyIs(line: string, key: string) {
    |line| > |key| && line[..|key|] == key && line[|key|] == '='
  }

  /** The names in the command tables: non-empty, without '=', not starting with '#'. */
  predicate IsKey(key: string) {
    key != [] && '=' !in key && key[0] != '#'
  }

  /** An entry of a key is not commented out. */
  lemma EntryUncommented(line: string, key: string)
    requires IsKey(key) && KeyIs(line, key)
    ensures !IsCommented(line) && Uncomment(line) == line
  {
    assert line[0] == key[0];
  }

  /** Whether a read of `key` takes this line: a commented line is skipped, unless
      commented values are read too, in which case it is compared without its '#'. */
  predicate Selects(line: string, key: string, withComments: bool) {
    if IsCommented(line) then withComments && KeyIs(line[1..], key) else KeyIs(line, key)
  }

  /** The index of the first line a read of `key` takes. */
  function FindEntry(lines: Lines, key: string, withComments: bool): (r: Option<nat>)
    ensures r.Some? ==> r.value < |lines| && Selects(lines[r.value], key, withComments)
  {
    if lines == [] then None
    else if Selects(lines[0], key, withComments) then Some(0)
    else match FindEntry(lines[1..], key, withComments)
      case None => None
      case Some(i) => Some(i + 1)
  }

  /** qsap_read_cfg on an opened file. The first line taken gives, with its trailing CR/LF
      removed, `success <line>` or, when an output name is given, `success <name>=<value>`;
      with no such line the default value answers, and without one the key is reported
      as not enabled. */
  function ReadLines(lines: Lines, key: string, dflt: Option<string>, outName: Option<string>,
                     withComments: bool): Response
  {
    match FindEntry(lines, key, withComments)
    case Some(i) =>
      var seen := TrimCrLf(Uncomment(lines[i]));
      Success(if outName.Some? then outName.value + "=" + AfterEq(seen) else seen)
    case None =>
      if dflt.Some? then Success((if outName.Some? then outName.value else key) + "=" + dflt.value)
      else Failure(FeatureNotEnabled)
  }

  /** The state of qsap_write_cfg's copy loop: lines written to the temporary file, the
      lines left unread after an `END` line stopped it, and whether the entry was written. */
  datatype ScanState = ScanState(emitted: Lines, tail: Option<Lines>, found: bool)

  function Prepend(prefix: Lines, s: ScanState): ScanState {
    ScanState(prefix + s.emitted, s.tail, s.found)
  }

  /** The copy loop of qsap_write_cfg from a given point on. The first line whose
      uncommented text is an entry of `key` is replaced by `entry` (only while `found` is
      false); in the ini file a line whose text, past the '#' of the original line,
      starts with `END` stops the loop and is not copied. */
  function WriteScan(lines: Lines, key: string, entry: string, ini: bool, found: bool): ScanState
    requires entry != []
  {
    if lines == [] then ScanState([], None, found)
    else
      var line := lines[0];
      var hit := !found && KeyIs(Uncomment(line), key);
      var buf := if hit then entry else line;
      var pline := if IsCommented(line) then buf[1..] else buf;
      if ini && StartsWith(pline, "END") then ScanState([], Some(lines[1..]), found || hit)
      else Prepend([buf], WriteScan(lines[1..], key, entry, ini, found || hit))
  }

  /** qsap_write_cfg on an opened file: the copied lines, then `key=value` when no line
      was replaced, then, for the ini file, `END` and the lines after the old `END`. */
  function WriteLines(lines: Lines, key: string, value: string, ini: bool): Lines {
    var entry := key + "=" + value;
    var s := WriteScan(lines, key, entry, ini, false);
    s.emitted + (if s.found then [] else [entry])
      + (if ini then ["END"] + (if s.tail.Some? then s.tail.value else []) else [])
  }

  lemma WriteScanUnfold(lines: Lines, key: string, entry: string, ini: bool, found: bool)
    requires lines != [] && entry != []
    ensures var hit := !found && KeyIs(Uncomment(lines[0]), key);
            var buf := if hit then entry else lines[0];
            var pline := if IsCommented(lines[0]) then buf[1..] else buf;
            WriteScan(lines, key, entry, ini, found)
            == if ini && StartsWith(pline, "END") then ScanState([], Some(lines[1..]), found || hit)
               else Prepend([buf], WriteScan(lines[1..], key, entry, ini, found || hit))
  {
  }

  lemma PrependTwice(a: Lines, b: Lines, s: ScanState)
    ensures Prepend(a + b, s) == Prepend(a, Prepend(b, s))
  {
    assert (a + b) + s.emitted == a + (b + s.emitted);
  }

  /** qsap_change_cfg on one line: an entry of `key`, commented or not, becomes its
      uncommented text when enabling and '#' + that text when disabling. */
  function ToggleLine(line: string, key: string, enable: bool): string {
    var p := Uncomment(line);
    if KeyIs(p, key) then (if enable then p else "#" + p) else line
  }

  function ToggleLines(lines: Lines, key: string, enable: bool): Lines {
    seq(|lines|, i requires 0 <= i < |lines| => ToggleLine(lines[i], key, enable))
  }

  /** The read loop of qsap_read_cfg. */
  method ReadScan(lines: Lines, key: string, withComments: bool) returns (idx: Option<nat>)
    ensures idx == FindEntry(lines, key, withComments)
  {
    var i := 0;
    while i < |lines|
      invariant 0 <= i <= |lines|
      invariant forall j :: 0 <= j < i ==> !Selects(lines[j], key, withComments)
    {
      var line := lines[i];
      if IsCommented(line) && !withComments {
        i := i + 1;
        continue;
      }
      var pline := if IsCommented(line) then line[1..] else line;
      if |pline| > |key| && pline[..|key|] == key && pline[|key|] == '=' {
        FindEntryAt(lines, key, withComments, i);
        return Some(i);
      }
      i := i + 1;
    }
    FindEntryMeans(lines, key, withComments);
    return None;
  }

  /** The copy loop of qsap_write_cfg, followed by the append and the ini tail. */
  method WriteRewrite(lines: Lines, key: string, value: string, ini: bool) returns (out: Lines)
    ensures out == WriteLines(lines, key, value, ini)
  {
    var entry := key + "=" + value;
    var found := false;
    var emitted: Lines := [];
    var tail: Option<Lines> := None;
    var stopped := false;
    var i := 0;
    while i < |lines| && !stopped
      invariant 0 <= i <= |lines|
      invariant !stopped ==> tail == None
      invariant !stopped ==> Prepend(emitted, WriteScan(lines[i..], key, entry, ini, found))
                             == WriteScan(lines, key, entry, ini, false)
      invariant stopped ==> ScanState(emitted, tail, found) == WriteScan(lines, key, entry, ini, false)
      decreases |lines| - i, if stopped then 0 else 1
    {
      var line := lines[i];
      WriteScanUnfold(lines[i..], key, entry, ini, found);
      assert lines[i..][0] == line && lines[i..][1..] == lines[i + 1..];
      var buf := line;
      var pline := Uncomment(line);
      if KeyIs(pline, key) && !found {
        buf := entry;
        found := true;
      }
      var after := if IsCommented(line) then buf[1..] else buf;
      if ini && StartsWith(after, "END") {
        tail := Some(lines[i + 1..]);
        stopped := true;
      } else {
        PrependTwice(emitted, [buf], WriteScan(lines[i + 1..], key, entry, ini, found));
        emitted := emitted + [buf];
        i := i + 1;
      }
    }
    if !stopped {
      assert lines[i..] == [];
    }
    assert ScanState(emitted, tail, found) == WriteScan(lines, key, entry, ini, false);
    out := emitted + (if found then [] else [entry])
      + (if ini then ["END"] + (if tail.Some? then tail.value else []) else []);
  }

  /** The copy loop of qsap_change_cfg. */
  method ToggleRewrite(lines: Lines, key: string, enable: bool) returns (out: Lines)
    ensures out == ToggleLines(lines, key, enable)
  {
    out := [];
    var i := 0;
    while i < |lines|
      invariant 0 <= i <= |lines| && |out| == i
      invariant forall j :: 0 <= j < i ==> out[j] == ToggleLine(lines[j], key, enable)
    {
      var p := lines[i];
      if IsCommented(p) {
        p := p[1..];
      }
      if |p| > |key| && p[..|key|] == key && p[|key|] == '=' {
        out := out + [if enable then p else "#" + p];
      } else {
        out := out + [lines[i]];
      }
      i := i + 1;
    }
  }

  /** The copy loop of wifi_qsap_reset_to_default. */
  method CopyLines(src: Lines) returns (out: Lines)
    ensures out == src
  {
    out := [];
    var i := 0;
    while i < |src|
      invariant 0 <= i <= |src| && out == src[..i]
    {
      out := out + [src[i]];
      i := i + 1;
    }
  }

  // ---------------------------------------------------------------------------
  // What a write does

  /** A line at which the copy loop of an ini-file write stops: its text past a
      leading '#' starts with `END`. */
  predicate IsEndLine(line: string) { StartsWith(Uncomment(line), "END") }

  /** The index of the first `END` line. */
  function FindEnd(lines: Lines): (r: Option<nat>)
    ensures r.Some? ==> r.value < |lines| && IsEndLine(lines[r.value])
  {
    if lines == [] then None
    else if IsEndLine(lines[0]) then Some(0)
    else match FindEnd(lines[1..])
      case None => None
      case Some(i) => Some(i + 1)
  }

  /** A key whose entries, before or after replacement, can never be taken for the
      `END` sentinel of the ini file; every name in the command tables is such a key. */
  predicate EndFree(key: string) {
    key != [] && !StartsWith(key, "END") && !StartsWith(key[1..], "END")
  }

  lemma EntryNotEnd(key: string, line: string)
    requires EndFree(key) && KeyIs(line, key)
    ensures !StartsWith(line, "END") && !StartsWith(line[1..], "END")
  {
    if |key| < 3 {
      assert line[|key|] == '=';
    } else {
      assert line[..3] == line[..|key|][..3];
    }
    if |key| < 4 {
      assert line[1..][|key| - 1] == '=';
    } else {
      assert line[1..][..3] == line[..|key|][1..4];
    }
  }

  /** Without the `END` sentinel the copy loop replaces the first entry of `key`,
      commented or not, and copies every other line. */
  lemma {:induction false} ScanPlain(lines: Lines, key: string, entry: string, found: bool)
    requires entry != []
    ensures var s := WriteScan(lines, key, entry, false, found);
            var f := FindEntry(lines, key, true);
            s.tail == None && s.found == (found || f.Some?)
            && s.emitted == if found || f.None? then lines else lines[f.value := entry]
    decreases |lines|
  {
    if lines != [] {
      var hit := !found && KeyIs(Uncomment(lines[0]), key);
      var buf := if hit then entry else lines[0];
      WriteScanUnfold(lines, key, entry, false, found);
      ScanPlain(lines[1..], key, entry, found || hit);
      if hit {
        ScanPlainHit(lines, key, entry);
      } else if !found {
        ScanPlainSkip(lines, key, entry);
      } else {
        assert [lines[0]] + lines[1..] == lines;
      }
    }
  }

  /** A first line that is an entry of the key is the one replaced. */
  lemma ScanPlainHit(lines: Lines, key: string, entry: string)
    requires lines != [] && KeyIs(Uncomment(lines[0]), key)
    ensures FindEntry(lines, key, true) == Some(0)
    ensures [entry] + lines[1..] == lines[0 := entry]
  {
    assert ([entry] + lines[1..])[0] == entry;
  }

  /** A first line that is no entry of the key moves the found index by one. */
  lemma ScanPlainSkip(lines: Lines, key: string, entry: string)
    requires lines != [] && !KeyIs(Uncomment(lines[0]), key)
    ensures var f := FindEntry(lines[1..], key, true);
            var g := FindEntry(lines, key, true);
            f.Some? == g.Some? && (f.Some? ==> g.value == f.value + 1)
            && [lines[0]] + (if f.None? then lines[1..] else lines[1..][f.value := entry])
               == if g.None? then lines else lines[g.value := entry]
  {
    match FindEntry(lines[1..], key, true)
    case None =>
      assert [lines[0]] + lines[1..] == lines;
    case Some(j) =>
      assert [lines[0]] + lines[1..][j := entry] == lines[j + 1 := entry];
  }

  /** In the ini file the copy loop is the plain loop over the lines before the first
      `END` line, which it drops, keeping the lines after it as the tail. */
  lemma {:induction false} ScanIni(lines: Lines, key: string, value: string, found: bool)
    requires EndFree(key)
    ensures var entry := key + "=" + value;
            WriteScan(lines, key, entry, true, found)
            == match FindEnd(lines)
               case Some(e) => WriteScan(lines[..e], key, entry, false, found).(tail := Some(lines[e + 1..]))
               case None => WriteScan(lines, key, entry, false, found)
    decreases |lines|
  {
    var entry := key + "=" + value;
    assert KeyIs(entry, key) by {
      assert entry[..|key|] == key;
    }
    EntryNotEnd(key, entry);
    if lines != [] {
      var line := lines[0];
      var hit := !found && KeyIs(Uncomment(line), key);
      if KeyIs(Uncomment(line), key) {
        EntryNotEnd(key, Uncomment(line));
      }
      if IsEndLine(line) {
        assert lines[..0] == [];
      } else {
        ScanIni(lines[1..], key, value, found || hit);
        match FindEnd(lines[1..])
        case None =>
        case Some(e) =>
          assert lines[..e + 1][1..] == lines[1..][..e];
          assert lines[1..][e + 1..] == lines[e + 2..];
      }
    }
  }

  /** qsap_write_cfg on the hostapd file: the first entry of `key`, commented or not,
      becomes `key=value`; without one, `key=value` is appended. Nothing else changes. */
  lemma WritePlain(lines: Lines, key: string, value: string)
    ensures WriteLines(lines, key, value, false)
            == match FindEntry(lines, key, true)
               case Some(i) => lines[i := key + "=" + value]
               case None => lines + [key + "=" + value]
  {
    ScanPlain(lines, key, key + "=" + value, false);
  }

  /** qsap_write_cfg on the ini file: the plain write applied to the lines before the
      first `END` line, then `END`, then the lines after the old `END` unchanged. */
  lemma WriteIni(lines: Lines, key: string, value: string)
    requires EndFree(key)
    ensures WriteLines(lines, key, value, true)
            == match FindEnd(lines)
               case Some(e) => WriteLines(lines[..e], key, value, false) + ["END"] + lines[e + 1..]
               case None => WriteLines(lines, key, value, false) + ["END"]
  {
    ScanIni(lines, key, value, false);
    match FindEnd(lines)
    case Some(e) => WriteIniAt(lines, key, value, e);
    case None => ScanPlain(lines, key, key + "=" + value, false);
  }

  lemma WriteIniAt(lines: Lines, key: string, value: string, e: nat)
    requires e < |lines|
    requires var entry := key + "=" + value;
             WriteScan(lines, key, entry, true, false)
             == WriteScan(lines[..e], key, entry, false, false).(tail := Some(lines[e + 1..]))
    ensures WriteLines(lines, key, value, true)
            == WriteLines(lines[..e], key, value, false) + ["END"] + lines[e + 1..]
  {
    var entry := key + "=" + value;
    var s := WriteScan(lines[..e], key, entry, false, false);
    ScanPlain(lines[..e], key, entry, false);
    var added := if s.found then [] else [entry];
    assert WriteLines(lines[..e], key, value, false) == s.emitted + added + [];
    assert WriteLines(lines, key, value, true) == s.emitted + added + (["END"] + lines[e + 1..]);
  }

  // ---------------------------------------------------------------------------
  // Reading after a write

  /** The first entry: no line before the one found is taken, and none at all when no
      line is found. */
  lemma {:induction false} FindEntryMeans(lines: Lines, key: string, withComments: bool)
    ensures var r := FindEntry(lines, key, withComments);
            r.Some? ==> forall j :: 0 <= j < r.value ==> !Selects(lines[j], key, withComments)
    ensures FindEntry(lines, key, withComments).None?
            ==> forall j :: 0 <= j < |lines| ==> !Selects(lines[j], key, withComments)
  {
    if lines != [] && !Selects(lines[0], key, withComments) {
      FindEntryMeans(lines[1..], key, withComments);
      forall j | 1 <= j < |lines|
        ensures lines[j] == lines[1..][j - 1]
      {
      }
    }
  }

  /** A line that is taken, with no line taken before it, is the one found. */
  lemma {:induction false} FindEntryAt(lines: Lines, key: string, withComments: bool, i: nat)
    requires i < |lines| && Selects(lines[i], key, withComments)
    requires forall j :: 0 <= j < i ==> !Selects(lines[j], key, withComments)
    ensures FindEntry(lines, key, withComments) == Some(i)
  {
    if i > 0 {
      assert !Selects(lines[0], key, withComments);
      FindEntryAt(lines[1..], key, withComments, i - 1);
    }
  }

  lemma {:induction false} FindEntryPrefix(a: Lines, b: Lines, key: string, withComments: bool)
    requires FindEntry(a, key, withComments).Some?
    ensures FindEntry(a + b, key, withComments) == FindEntry(a, key, withComments)
  {
    var i := FindEntry(a, key, withComments).value;
    FindEntryMeans(a, key, withComments);
    assert (a + b)[i] == a[i];
    assert forall j :: 0 <= j < i ==> (a + b)[j] == a[j];
    FindEntryAt(a + b, key, withComments, i);
  }

  /** The entry `key=value` is uncommented and is an entry of `key`. */
  lemma EntrySelected(key: string, value: string, withComments: bool)
    requires IsKey(key)
    ensures Selects(key + "=" + value, key, withComments)
    ensures Uncomment(key + "=" + value) == key + "=" + value
  {
    assert (key + "=" + value)[..|key|] == key;
    assert (key + "=" + value)[0] == key[0];
  }

  /** Where a plain write puts the entry: at the first entry of the key, or at the end. */
  function WritePos(lines: Lines, key: string): nat {
    match FindEntry(lines, key, true)
    case Some(i) => i
    case None => |lines|
  }

  /** After a plain write, a read of `key`, with or without commented lines, takes the
      written entry. */
  lemma FindAfterWritePlain(lines: Lines, key: string, value: string, withComments: bool)
    requires IsKey(key)
    ensures FindEntry(WriteLines(lines, key, value, false), key, withComments)
            == Some(WritePos(lines, key))
  {
    WritePlain(lines, key, value);
    EntrySelected(key, value, withComments);
    var w := WriteLines(lines, key, value, false);
    var p := WritePos(lines, key);
    FindEntryMeans(lines, key, true);
    assert w[p] == key + "=" + value;
    assert forall j :: 0 <= j < p ==> w[j] == lines[j] && !Selects(lines[j], key, true);
    FindEntryAt(w, key, withComments, p);
  }

  lemma FindAfterWriteTail(a: Lines, rest: Lines, key: string, value: string, withComments: bool)
    requires IsKey(key)
    ensures var w := WriteLines(a, key, value, false) + rest;
            var f := FindEntry(w, key, withComments);
            f.Some? && w[f.value] == key + "=" + value
  {
    FindAfterWritePlain(a, key, value, withComments);
    WritePlain(a, key, value);
    FindEntryPrefix(WriteLines(a, key, value, false), rest, key, withComments);
  }

  /** A read of `key` after a write of `key=value` finds that entry again. */
  lemma FindAfterWrite(lines: Lines, key: string, value: string, ini: bool, withComments: bool)
    requires IsKey(key) && (ini ==> EndFree(key))
    ensures var w := WriteLines(lines, key, value, ini);
            var f := FindEntry(w, key, withComments);
            f.Some? && w[f.value] == key + "=" + value
  {
    if !ini {
      FindAfterWriteTail(lines, [], key, value, withComments);
      assert WriteLines(lines, key, value, false) + [] == WriteLines(lines, key, value, false);
    } else {
      FindAfterWriteIni(lines, key, value, withComments);
    }
  }

  lemma FindAfterWriteIni(lines: Lines, key: string, value: string, withComments: bool)
    requires IsKey(key) && EndFree(key)
    ensures var w := WriteLines(lines, key, value, true);
            var f := FindEntry(w, key, withComments);
            f.Some? && w[f.value] == key + "=" + value
  {
    WriteIniForm(lines, key, value);
    var a := BeforeEnd(lines);
    var rest := ["END"] + AfterEnd(lines);
    assert WriteLines(lines, key, value, true) == WriteLines(a, key, value, false) + rest;
    FindAfterWriteTail(a, rest, key, value, withComments);
  }

  /** Read after write: qsap_read_cfg of `key` after qsap_write_cfg of `key=value` answers
      with that value, under the output name when one is given, provided the value is one
      line: no line feed in it and no carriage return at its end. */
  lemma ReadAfterWrite(lines: Lines, key: string, value: string, ini: bool,
                       dflt: Option<string>, outName: Option<string>, withComments: bool)
    requires IsKey(key) && (ini ==> EndFree(key))
    requires OneLine(value)
    ensures ReadLines(WriteLines(lines, key, value, ini), key, dflt, outName, withComments)
            == Success((if outName.Some? then outName.value else key) + "=" + value)
  {
    FindAfterWrite(lines, key, value, ini, withComments);
    EntrySelected(key, value, withComments);
    var e := key + "=" + value;
    assert e[|e| - 1] != '\r' && e[|e| - 1] != '\n' by {
      if value == [] {
        assert e[|e| - 1] == '=';
      } else {
        assert e[|e| - 1] == value[|value| - 1];
      }
    }
    assert TrimCrLf(e) == e;
    AfterKeyEq(key, value);
  }

  // ---------------------------------------------------------------------------
  // Writing twice

  /** A second plain write of the same key replaces the entry the first one wrote. */
  lemma WriteTwicePlain(lines: Lines, key: string, v1: string, v2: string)
    requires IsKey(key)
    ensures WriteLines(WriteLines(lines, key, v1, false), key, v2, false)
            == WriteLines(lines, key, v2, false)
  {
    var w1 := WriteLines(lines, key, v1, false);
    FindAfterWritePlain(lines, key, v1, true);
    WritePlain(w1, key, v2);
    WritePlain(lines, key, v1);
    WritePlain(lines, key, v2);
  }

  /** A plain write of a key that cannot pass for `END` adds no `END` line. */
  lemma WritePlainNoEnd(lines: Lines, key: string, value: string)
    requires EndFree(key)
    requires FindEnd(lines).None?
    ensures FindEnd(WriteLines(lines, key, value, false)).None?
  {
    WritePlain(lines, key, value);
    var e := key + "=" + value;
    assert KeyIs(e, key) by {
      assert e[..|key|] == key;
    }
    EntryNotEnd(key, e);
    assert !IsEndLine(e);
    var w := WriteLines(lines, key, value, false);
    FindEndMeans(lines);
    assert forall j :: 0 <= j < |w| ==> w[j] == e || w[j] == lines[j];
    NoEndFound(w);
  }

  /** Lines none of which is an `END` line have no `END` line. */
  lemma {:induction false} NoEndFound(lines: Lines)
    requires forall j :: 0 <= j < |lines| ==> !IsEndLine(lines[j])
    ensures FindEnd(lines).None?
  {
    if lines != [] {
      assert !IsEndLine(lines[0]);
      NoEndFound(lines[1..]);
    }
  }

  lemma {:induction false} FindEndAt(lines: Lines, i: nat)
    requires i < |lines| && IsEndLine(lines[i])
    requires forall j :: 0 <= j < i ==> !IsEndLine(lines[j])
    ensures FindEnd(lines) == Some(i)
  {
    if i > 0 {
      assert !IsEndLine(lines[0]);
      FindEndAt(lines[1..], i - 1);
    }
  }

  /** The first `END` line: no line before it is one, and none at all when none is found. */
  lemma {:induction false} FindEndMeans(lines: Lines)
    ensures FindEnd(lines).Some? ==> forall j :: 0 <= j < FindEnd(lines).value ==> !IsEndLine(lines[j])
    ensures FindEnd(lines).None? ==> forall j :: 0 <= j < |lines| ==> !IsEndLine(lines[j])
  {
    if lines != [] && !IsEndLine(lines[0]) {
      FindEndMeans(lines[1..]);
      forall j | 1 <= j < |lines|
        ensures lines[j] == lines[1..][j - 1]
      {
      }
    }
  }

  /** The lines before the first `END` line, all of them when there is none. */
  function BeforeEnd(lines: Lines): Lines {
    match FindEnd(lines)
    case Some(e) => lines[..e]
    case None => lines
  }

  /** The lines after the first `END` line, none when there is none. */
  function AfterEnd(lines: Lines): Lines {
    match FindEnd(lines)
    case Some(e) => lines[e + 1..]
    case None => []
  }

  /** A write to an ini file is a plain write to the lines before `END`, followed by an
      `END` line and the lines after the old one. */
  lemma WriteIniForm(lines: Lines, key: string, value: string)
    requires EndFree(key)
    ensures WriteLines(lines, key, value, true)
            == WriteLines(BeforeEnd(lines), key, value, false) + ["END"] + AfterEnd(lines)
  {
    WriteIni(lines, key, value);
    if FindEnd(lines).None? {
      assert WriteLines(lines, key, value, false) + ["END"] + []
             == WriteLines(lines, key, value, false) + ["END"];
    }
  }

  /** There is no `END` line before the first one. */
  lemma BeforeEndFree(lines: Lines)
    ensures FindEnd(BeforeEnd(lines)).None?
  {
    FindEndMeans(lines);
    var b := BeforeEnd(lines);
    assert forall j :: 0 <= j < |b| ==> b[j] == lines[j];
    NoEndFound(b);
  }

  /** Lines without `END`, an `END` line and more lines: the first is the one. */
  lemma EndSplit(x: Lines, t: Lines)
    requires FindEnd(x).None?
    ensures BeforeEnd(x + ["END"] + t) == x && AfterEnd(x + ["END"] + t) == t
  {
    var w := x + ["END"] + t;
    FindEndMeans(x);
    assert IsEndLine("END") by {
      assert !IsCommented("END");
      assert "END"[..3] == "END";
    }
    assert w[|x|] == "END";
    forall j | 0 <= j < |x|
      ensures !IsEndLine(w[j])
    {
      assert w[j] == x[j];
    }
    FindEndAt(w, |x|);
    assert w[..|x|] == x;
    assert w[|x| + 1..] == t;
  }

  /** A second write of the same key replaces the entry the first one wrote, in either
      file, when the first value has no line feed: writing is last-writer-wins and
      idempotent. */
  lemma WriteTwice(lines: Lines, key: string, v1: string, v2: string, ini: bool)
    requires IsKey(key) && (ini ==> EndFree(key))
    requires '\n' !in v1
    ensures WriteLines(WriteLines(lines, key, v1, ini), key, v2, ini)
            == WriteLines(lines, key, v2, ini)
  {
    if !ini {
      WriteTwicePlain(lines, key, v1, v2);
    } else {
      WriteTwiceIni(lines, key, v1, v2);
    }
  }

  lemma WriteTwiceIni(lines: Lines, key: string, v1: string, v2: string)
    requires IsKey(key) && EndFree(key)
    ensures WriteLines(WriteLines(lines, key, v1, true), key, v2, true)
            == WriteLines(lines, key, v2, true)
  {
    var a, t := BeforeEnd(lines), AfterEnd(lines);
    var x := WriteLines(a, key, v1, false);
    var w1 := WriteLines(lines, key, v1, true);
    WriteIniForm(lines, key, v1);
    BeforeEndFree(lines);
    WritePlainNoEnd(a, key, v1);
    EndSplit(x, t);
    WriteIniForm(w1, key, v2);
    WriteTwicePlain(a, key, v1, v2);
    WriteIniForm(lines, key, v2);
  }

  // ---------------------------------------------------------------------------
  // Other keys are not disturbed

  /** The lines a read of `key` could take, in file order. */
  function Entries(lines: Lines, key: string, withComments: bool): (r: Lines)
    ensures |r| <= |lines|
  {
    if lines == [] then []
    else (if Selects(lines[0], key, withComments) then [lines[0]] else [])
         + Entries(lines[1..], key, withComments)
  }

  /** A read takes the first of the entries, and finds nothing when there are none. */
  lemma {:induction false} FindFirstEntry(lines: Lines, key: string, withComments: bool)
    ensures var f := FindEntry(lines, key, withComments);
            var es := Entries(lines, key, withComments);
            f.Some? == (es != []) && (f.Some? ==> lines[f.value] == es[0])
    decreases |lines|
  {
    if lines != [] {
      FindFirstEntry(lines[1..], key, withComments);
    }
  }

  /** A read depends only on the entries of its key. */
  lemma ReadByEntries(a: Lines, b: Lines, key: string, dflt: Option<string>,
                      outName: Option<string>, withComments: bool)
    requires Entries(a, key, withComments) == Entries(b, key, withComments)
    ensures ReadLines(a, key, dflt, outName, withComments)
            == ReadLines(b, key, dflt, outName, withComments)
  {
    FindFirstEntry(a, key, withComments);
    FindFirstEntry(b, key, withComments);
  }

  lemma {:induction false} EntriesConcat(a: Lines, b: Lines, key: string, withComments: bool)
    ensures Entries(a + b, key, withComments)
            == Entries(a, key, withComments) + Entries(b, key, withComments)
    decreases |a|
  {
    if a != [] {
      assert (a + b)[0] == a[0] && (a + b)[1..] == a[1..] + b;
      EntriesConcat(a[1..], b, key, withComments);
    } else {
      assert a + b == b;
    }
  }

  /** Distinct keys have distinct entries: no line is an entry of both. */
  lemma KeysExclusive(line: string, k1: string, k2: string)
    requires IsKey(k1) && IsKey(k2) && k1 != k2
    requires KeyIs(line, k1)
    ensures !KeyIs(line, k2)
  {
    if |k1| < |k2| && |line| > |k2| {
      assert line[..|k2|][|k1|] == '=';
    } else if |k1| > |k2| {
      assert line[|k2|] == k1[|k2|];
    }
  }

  /** A line that is an entry of one key, commented or not, is never taken by a read of
      another key. */
  lemma NotOtherEntry(line: string, k1: string, k2: string, withComments: bool)
    requires IsKey(k1) && IsKey(k2) && k1 != k2
    requires KeyIs(Uncomment(line), k1)
    ensures !Selects(line, k2, withComments)
  {
    KeysExclusive(Uncomment(line), k1, k2);
  }

  lemma EntriesOne(line: string, key: string, withComments: bool)
    ensures Entries([line], key, withComments)
            == if Selects(line, key, withComments) then [line] else []
  {
    assert [line][1..] == [];
  }

  /** A plain write of one key leaves the entries of every other key as they were. */
  lemma WritePlainEntries(lines: Lines, k1: string, k2: string, value: string, withComments: bool)
    requires IsKey(k1) && IsKey(k2) && k1 != k2
    ensures Entries(WriteLines(lines, k1, value, false), k2, withComments)
            == Entries(lines, k2, withComments)
  {
    WritePlain(lines, k1, value);
    var e := k1 + "=" + value;
    EntrySelected(k1, value, true);
    NotOtherEntry(e, k1, k2, withComments);
    EntriesOne(e, k2, withComments);
    match FindEntry(lines, k1, true)
    case None =>
      EntriesConcat(lines, [e], k2, withComments);
    case Some(i) =>
      NotOtherEntry(lines[i], k1, k2, withComments);
      EntriesOne(lines[i], k2, withComments);
      assert lines == lines[..i] + [lines[i]] + lines[i + 1..];
      assert lines[i := e] == lines[..i] + [e] + lines[i + 1..];
      EntriesConcat(lines[..i] + [lines[i]], lines[i + 1..], k2, withComments);
      EntriesConcat(lines[..i], [lines[i]], k2, withComments);
      EntriesConcat(lines[..i] + [e], lines[i + 1..], k2, withComments);
      EntriesConcat(lines[..i], [e], k2, withComments);
  }

  /** An `END` line is never an entry of a key that cannot pass for `END`, nor is the
      `END` line a write puts back. */
  lemma EndNotEntry(line: string, key: string, withComments: bool)
    requires IsKey(key) && EndFree(key)
    requires IsEndLine(line) || line == "END"
    ensures !Selects(line, key, withComments)
  {
    if line == "END" {
      assert !IsCommented(line);
      if |key| < 3 {
        assert line[|key|] != '=';
      }
    } else if KeyIs(Uncomment(line), key) {
      EntryNotEnd(key, Uncomment(line));
    }
  }

  lemma EntriesAround(x: Lines, mid: string, t: Lines, key: string, withComments: bool)
    requires !Selects(mid, key, withComments)
    ensures Entries(x + [mid] + t, key, withComments)
            == Entries(x, key, withComments) + Entries(t, key, withComments)
  {
    EntriesOne(mid, key, withComments);
    EntriesConcat(x + [mid], t, key, withComments);
    EntriesConcat(x, [mid], key, withComments);
  }

  lemma WriteIniEntries(lines: Lines, k1: string, k2: string, value: string, withComments: bool)
    requires IsKey(k1) && IsKey(k2) && k1 != k2 && EndFree(k1) && EndFree(k2)
    ensures Entries(WriteLines(lines, k1, value, true), k2, withComments)
            == Entries(lines, k2, withComments)
  {
    var a, t := BeforeEnd(lines), AfterEnd(lines);
    var x := WriteLines(a, k1, value, false);
    WriteIniForm(lines, k1, value);
    WritePlainEntries(a, k1, k2, value, withComments);
    EndNotEntry("END", k2, withComments);
    EntriesAround(x, "END", t, k2, withComments);
    EntriesAroundEnd(lines, k2, withComments);
  }

  /** The entries of a file are those before and after its `END` line. */
  lemma EntriesAroundEnd(lines: Lines, key: string, withComments: bool)
    requires IsKey(key) && EndFree(key)
    ensures Entries(lines, key, withComments)
            == Entries(BeforeEnd(lines), key, withComments) + Entries(AfterEnd(lines), key, withComments)
  {
    match FindEnd(lines)
    case Some(e) =>
      EndNotEntry(lines[e], key, withComments);
      assert lines == lines[..e] + [lines[e]] + lines[e + 1..];
      EntriesAround(lines[..e], lines[e], lines[e + 1..], key, withComments);
    case None =>
      assert Entries([], key, withComments) == [];
      assert lines + [] == lines;
  }

  /** The frame of qsap_write_cfg: writing one key with a value that has no line feed
      changes what a read of any other key answers in neither file. */
  lemma WriteFrame(lines: Lines, k1: string, k2: string, value: string, ini: bool,
                   dflt: Option<string>, outName: Option<string>, withComments: bool)
    requires IsKey(k1) && IsKey(k2) && k1 != k2
    requires ini ==> EndFree(k1) && EndFree(k2)
    requires '\n' !in value
    ensures ReadLines(WriteLines(lines, k1, value, ini), k2, dflt, outName, withComments)
            == ReadLines(lines, k2, dflt, outName, withComments)
  {
    if ini {
      WriteIniEntries(lines, k1, k2, value, withComments);
    } else {
      WritePlainEntries(lines, k1, k2, value, withComments);
    }
    ReadByEntries(WriteLines(lines, k1, value, ini), lines, k2, dflt, outName, withComments);
  }

  // ---------------------------------------------------------------------------
  // What a toggle does

  /** Toggling a line twice: the second toggle decides, whatever the first did. */
  lemma ToggleLineTwice(line: string, key: string, e1: bool, e2: bool)
    requires IsKey(key)
    ensures ToggleLine(ToggleLine(line, key, e1), key, e2) == ToggleLine(line, key, e2)
  {
    var p := Uncomment(line);
    if KeyIs(p, key) {
      assert p[0] == key[0];
      assert ("#" + p)[1..] == p;
    }
  }

  /** qsap_change_cfg: the last toggle of a key wins, so each direction is idempotent. */
  lemma ToggleTwice(lines: Lines, key: string, e1: bool, e2: bool)
    requires IsKey(key)
    ensures ToggleLines(ToggleLines(lines, key, e1), key, e2) == ToggleLines(lines, key, e2)
  {
    forall i | 0 <= i < |lines|
      ensures ToggleLines(ToggleLines(lines, key, e1), key, e2)[i] == ToggleLines(lines, key, e2)[i]
    {
      ToggleLineTwice(lines[i], key, e1, e2);
    }
  }

  /** Enabling a key none of whose entries is commented out changes nothing; so
      disabling and then enabling such a key gives the file back. */
  lemma DisableEnableRestores(lines: Lines, key: string)
    requires IsKey(key)
    requires forall i :: 0 <= i < |lines| && KeyIs(Uncomment(lines[i]), key) ==> !IsCommented(lines[i])
    ensures ToggleLines(lines, key, true) == lines
    ensures ToggleLines(ToggleLines(lines, key, false), key, true) == lines
  {
    ToggleTwice(lines, key, false, true);
  }

  /** After enabling, a read that skips commented lines takes what a read that looks
      through comments took before: the first entry, uncommented. */
  lemma ReadAfterEnable(lines: Lines, key: string, dflt: Option<string>, outName: Option<string>)
    requires IsKey(key)
    ensures ReadLines(ToggleLines(lines, key, true), key, dflt, outName, false)
            == ReadLines(lines, key, dflt, outName, true)
  {
    var t := ToggleLines(lines, key, true);
    forall i | 0 <= i < |lines|
      ensures Selects(t[i], key, false) == Selects(lines[i], key, true)
      ensures Selects(t[i], key, false) ==> Uncomment(t[i]) == Uncomment(lines[i])
    {
      var p := Uncomment(lines[i]);
      if KeyIs(p, key) {
        assert p[0] == key[0];
      }
    }
    FindEntrySame(t, lines, key, false, true);
  }

  /** After disabling, a read that skips commented lines finds no entry of the key and
      answers with the default, or reports the key as not enabled. */
  lemma ReadAfterDisable(lines: Lines, key: string, dflt: Option<string>, outName: Option<string>)
    requires IsKey(key)
    ensures ReadLines(ToggleLines(lines, key, false), key, dflt, outName, false)
            == if dflt.Some? then Success((if outName.Some? then outName.value else key) + "=" + dflt.value)
               else Failure(FeatureNotEnabled)
  {
    var t := ToggleLines(lines, key, false);
    forall i | 0 <= i < |t|
      ensures !Selects(t[i], key, false)
    {
      if KeyIs(lines[i], key) {
        EntryUncommented(lines[i], key);
      }
    }
  }

  /** Two line sequences that agree, line by line, on which lines a read takes pick the
      same index. */
  lemma FindEntrySame(a: Lines, b: Lines, key: string, wa: bool, wb: bool)
    requires |a| == |b|
    requires forall i :: 0 <= i < |a| ==> Selects(a[i], key, wa) == Selects(b[i], key, wb)
    ensures FindEntry(a, key, wa) == FindEntry(b, key, wb)
  {
    var fa := FindEntry(a, key, wa);
    FindEntryMeans(a, key, wa);
    FindEntryMeans(b, key, wb);
    if fa.Some? {
      FindEntryAt(b, key, wb, fa.value);
    }
  }

  /** Toggling one key leaves the entries of every other key as they were. */
  lemma {:induction false} ToggleEntries(lines: Lines, k1: string, k2: string, enable: bool,
                                         withComments: bool)
    requires IsKey(k1) && IsKey(k2) && k1 != k2
    ensures Entries(ToggleLines(lines, k1, enable), k2, withComments) == Entries(lines, k2, withComments)
    decreases |lines|
  {
    if lines != [] {
      var t := ToggleLines(lines, k1, enable);
      assert t[1..] == ToggleLines(lines[1..], k1, enable);
      ToggleEntries(lines[1..], k1, k2, enable, withComments);
      var p := Uncomment(lines[0]);
      if KeyIs(p, k1) {
        NotOtherEntry(lines[0], k1, k2, withComments);
        assert p[0] == k1[0];
        assert Uncomment(t[0]) == p;
        NotOtherEntry(t[0], k1, k2, withComments);
      }
    }
  }

  /** The frame of qsap_change_cfg: toggling one key changes what a read of any other
      key answers. */
  lemma ToggleFrame(lines: Lines, k1: string, k2: string, enable: bool,
                    dflt: Option<string>, outName: Option<string>, withComments: bool)
    requires IsKey(k1) && IsKey(k2) && k1 != k2
    ensures ReadLines(ToggleLines(lines, k1, enable), k2, dflt, outName, withComments)
            == ReadLines(lines, k2, dflt, outName, withComments)
  {
    ToggleEntries(lines, k1, k2, enable, withComments);
    ReadByEntries(ToggleLines(lines, k1, enable), lines, k2, dflt, outName, withComments);
  }

  /** A read that looks through comments answers the same before and after a toggle of
      its own key: toggling hides or shows a value, it never changes it. */
  lemma ToggleKeepsValue(lines: Lines, key: string, enable: bool,
                         dflt: Option<string>, outName: Option<string>)
    requires IsKey(key)
    ensures ReadLines(ToggleLines(lines, key, enable), key, dflt, outName, true)
            == ReadLines(lines, key, dflt, outName, true)
  {
    var t := ToggleLines(lines, key, enable);
    forall i | 0 <= i < |lines|
      ensures Selects(t[i], key, true) == Selects(lines[i], key, true)
      ensures Selects(t[i], key, true) ==> Uncomment(t[i]) == Uncomment(lines[i])
    {
      var p := Uncomment(lines[i]);
      if KeyIs(p, key) {
        assert p[0] == key[0];
        assert ("#" + p)[1..] == p;
      }
    }
    FindEntrySame(t, lines, key, true, true);
  }

  // ---------------------------------------------------------------------------
  // Several toggles in a row

  /** One qsap_change_cfg call: a key, and whether to enable or disable it. */
  datatype Toggle = Toggle(key: string, enable: bool)

  /** The toggles applied in order. */
  function ToggleAll(lines: Lines, ts: seq<Toggle>): Lines
    decreases |ts|
  {
    if ts == [] then lines
    else ToggleLines(ToggleAll(lines, ts[..|ts| - 1]), ts[|ts| - 1].key, ts[|ts| - 1].enable)
  }

  /** Toggles of other keys do not change what a read of `key` answers. */
  lemma {:induction false} ToggleAllFrame(lines: Lines, ts: seq<Toggle>, key: string,
                                          dflt: Option<string>, outName: Option<string>,
                                          withComments: bool)
    requires IsKey(key)
    requires forall j :: 0 <= j < |ts| ==> IsKey(ts[j].key) && ts[j].key != key
    ensures ReadLines(ToggleAll(lines, ts), key, dflt, outName, withComments)
            == ReadLines(lines, key, dflt, outName, withComments)
    decreases |ts|
  {
    if ts != [] {
      var last := ts[|ts| - 1];
      ToggleAllFrame(lines, ts[..|ts| - 1], key, dflt, outName, withComments);
      ToggleFrame(ToggleAll(lines, ts[..|ts| - 1]), last.key, key, last.enable,
                  dflt, outName, withComments);
    }
  }

  /** Applying a first toggle, then the others. */
  lemma {:induction false} ToggleAllCons(lines: Lines, t: Toggle, rest: seq<Toggle>)
    ensures ToggleAll(lines, [t] + rest) == ToggleAll(ToggleLines(lines, t.key, t.enable), rest)
    decreases |rest|
  {
    if rest != [] {
      var ts := [t] + rest;
      assert ts[..|ts| - 1] == [t] + rest[..|rest| - 1];
      assert ts[|ts| - 1] == rest[|rest| - 1];
      ToggleAllCons(lines, t, rest[..|rest| - 1]);
    } else {
      assert [t] + rest == [t];
      assert [t][..0] == [];
    }
  }

  /** Toggles never change what a read through comments answers. */
  lemma {:induction false} ToggleAllKeepsValue(lines: Lines, ts: seq<Toggle>, key: string,
                                               dflt: Option<string>, outName: Option<string>)
    requires IsKey(key)
    requires forall j :: 0 <= j < |ts| ==> IsKey(ts[j].key)
    ensures ReadLines(ToggleAll(lines, ts), key, dflt, outName, true)
            == ReadLines(lines, key, dflt, outName, true)
    decreases |ts|
  {
    if ts != [] {
      var last := ts[|ts| - 1];
      var prev := ToggleAll(lines, ts[..|ts| - 1]);
      ToggleAllKeepsValue(lines, ts[..|ts| - 1], key, dflt, outName);
      if last.key == key {
        ToggleKeepsValue(prev, key, last.enable, dflt, outName);
      } else {
        ToggleFrame(prev, last.key, key, last.enable, dflt, outName, true);
      }
    }
  }

  /** A run of toggles all in one direction, one of which is of `key`: after enabling, a
      read that skips commented lines takes what a read through comments took before;
      after disabling, it finds no entry. */
  lemma {:induction false} ToggleAllSame(lines: Lines, ts: seq<Toggle>, i: nat, enable: bool,
                                         dflt: Option<string>, outName: Option<string>)
    requires i < |ts|
    requires forall j :: 0 <= j < |ts| ==> IsKey(ts[j].key) && ts[j].enable == enable
    ensures ReadLines(ToggleAll(lines, ts), ts[i].key, dflt, outName, false)
            == if enable then ReadLines(lines, ts[i].key, dflt, outName, true)
               else ReadLines(ToggleLines(lines, ts[i].key, false), ts[i].key, dflt, outName, false)
    decreases |ts|
  {
    var key := ts[i].key;
    var last := ts[|ts| - 1];
    var init := ts[..|ts| - 1];
    var prev := ToggleAll(lines, init);
    if last.key == key {
      if enable {
        ReadAfterEnable(prev, key, dflt, outName);
        ToggleAllKeepsValue(lines, init, key, dflt, outName);
      } else {
        ReadAfterDisable(prev, key, dflt, outName);
        ReadAfterDisable(lines, key, dflt, outName);
      }
    } else {
      assert i < |init| && init[i] == ts[i];
      ToggleAllSame(lines, init, i, enable, dflt, outName);
      ToggleFrame(prev, last.key, key, last.enable, dflt, outName, false);
    }
  }
}
