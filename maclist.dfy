/** The allow and deny MAC-list files: one MAC address per line, added to by
    qsap_add_mac_to_file, filtered by qsap_remove_from_file and listed by
    qsap_get_mac_list. The path of each file is the value of the accept_mac_file or
    deny_mac_file entry of the hostapd configuration file. */
module MacList {
  import opened Text
  import opened Protocol
  import opened LineStore
  import opened Store
  import opened Tables
  import opened Mac

  // ---------------------------------------------------------------------------
  // qsap_get_allow_deny_file_name

  /** The path after '=' in the answer of an enabled-only read of the file's entry;
      `None` where the read fails. */
  function ListFilePath(fs: Fs, conf: string, entry: Command): Option<string> {
    match ReadCfg(fs, conf, entry, None, false)
    case Success(text) => Some(AfterEq(text))
    case Failure(_) => None
  }

  /** After the path is written as the entry's value, it is the path read back. */
  lemma ListFilePathAfterWrite(fs: Fs, conf: string, entry: Command, path: string)
    requires conf in fs && IsKey(entry.name)
    requires OneLine(path)
    ensures ListFilePath(WriteCfg(fs, conf, entry.name, path, false).fs, conf, entry) == Some(path)
  {
    ReadAfterWrite(fs[conf], entry.name, path, false, entry.dflt, None, false);
    assert '=' !in entry.name;
    AfterKeyEq(entry.name, path);
  }

  // ---------------------------------------------------------------------------
  // qsap_add_mac_to_file: splitting the value into addresses

  /** The number of characters before the first blank. */
  function Span(t: string): (k: nat)
    ensures k <= |t|
    decreases |t|
  {
    if t == [] || t[0] == ' ' then 0 else 1 + Span(t[1..])
  }

  lemma {:induction false} SpanAt(t: string, k: nat)
    requires k <= |t| && (k == |t| || t[k] == ' ')
    requires forall j :: 0 <= j < k ==> t[j] != ' '
    ensures Span(t) == k
    decreases k
  {
    if k > 0 {
      assert t[0] != ' ';
      SpanAt(t[1..], k - 1);
    }
  }

  lemma {:induction false} SpanAtLeast(t: string, k: nat)
    requires k <= |t|
    requires forall j :: 0 <= j < k ==> t[j] != ' '
    ensures Span(t) >= k
    decreases k
  {
    if k > 0 {
      assert t[0] != ' ';
      SpanAtLeast(t[1..], k - 1);
    }
  }

  /** How many characters the inner loop copies into macbuf: up to a blank or the end,
      and at most MAC_ADDR_LEN. */
  function TokenLen(t: string): (k: nat)
    ensures k <= |t| && k <= MacAddrLen
  {
    if Span(t) < MacAddrLen then Span(t) else MacAddrLen
  }

  /** The contents of macbuf. */
  function MacBuf(t: string): string {
    t[..TokenLen(t)]
  }

  /** Where pVal points after the `pVal++` that follows the copy: one character past the
      one that stopped it; at the end of the text when that was the last one. */
  function AfterToken(t: string): (rest: string)
    ensures t != [] ==> |rest| < |t|
  {
    if TokenLen(t) < |t| then t[TokenLen(t) + 1..] else []
  }

  /** The value of `len` after one round of the loop as written: the length of macbuf is
      subtracted, and one more when pVal does not point at the terminator. When macbuf
      ran to the end of the text, pVal is one past the terminator; the byte read there
      is taken as the terminator, and either value ends the loop. */
  function AddLenAfter(t: string, len: int): int {
    len - TokenLen(t) - (if AfterToken(t) != [] then 1 else 0)
  }

  /** `len` follows the length of the text left, except when the character skipped by
      `pVal++` is the last one: then `len` is 1 while no text is left. */
  lemma AddLenTracks(t: string)
    requires t != []
    ensures TokenLen(t) + 1 != |t| ==> AddLenAfter(t, |t|) == |AfterToken(t)|
    ensures TokenLen(t) + 1 == |t| ==> AfterToken(t) == [] && AddLenAfter(t, |t|) == 1
  {
  }

  /** A value that ends in a blank, such as the text qsap_get_mac_list answers with: the
      first round leaves len at 1 with pVal at the terminator, so the loop as written goes
      on and its next `pVal++` moves past the end of the string. */
  lemma AddOverrunExample()
    ensures var t := "11:22:33:44:55:66 ";
            AfterToken(t) == [] && AddLenAfter(t, |t|) == 1
  {
    var t := "11:22:33:44:55:66 ";
    SpanAt(t, 17);
  }

  /** The addresses the loop examines, in order, when it stops at the end of the text. */
  function MacTokens(t: string): seq<string>
    decreases |t|
  {
    if t == [] then [] else [MacBuf(t)] + MacTokens(AfterToken(t))
  }

  /** The addresses separated by single blanks, each followed by one. */
  function JoinBlank(macs: seq<string>): string
    decreases |macs|
  {
    if macs == [] then [] else macs[0] + " " + JoinBlank(macs[1..])
  }

  /** A full MAC address holds no blank. */
  predicate IsFullMac(m: string) { |m| == MacAddrLen && IsValidMac(m) }

  lemma FullMacNoBlank(m: string)
    requires IsFullMac(m)
    ensures forall j :: 0 <= j < |m| ==> m[j] != ' '
  {
    ValidMacMeans(m);
  }

  /** One address, a blank and more text: the address is taken, the blank skipped. */
  lemma TokenOfFull(m: string, rest: string)
    requires IsFullMac(m)
    ensures MacBuf(m + " " + rest) == m && AfterToken(m + " " + rest) == rest
  {
    var t := m + " " + rest;
    FullMacNoBlank(m);
    assert forall j :: 0 <= j < MacAddrLen ==> t[j] == m[j];
    SpanAtLeast(t, MacAddrLen);
    assert t[..MacAddrLen] == m;
    assert t[MacAddrLen + 1..] == rest;
  }

  /** The loop that stops at the end of the text splits a list of full addresses, as
      qsap_get_mac_list prints it, back into the addresses. */
  lemma {:induction false} MacTokensOfJoin(macs: seq<string>)
    requires forall k :: 0 <= k < |macs| ==> IsFullMac(macs[k])
    ensures MacTokens(JoinBlank(macs)) == macs
    decreases |macs|
  {
    if macs != [] {
      var rest := JoinBlank(macs[1..]);
      assert MacTokens(JoinBlank(macs)) == [macs[0]] + MacTokens(rest) by {
        TokenOfFull(macs[0], rest);
        assert JoinBlank(macs) == macs[0] + " " + rest;
      }
      MacTokensOfJoin(macs[1..]);
      assert macs == [macs[0]] + macs[1..];
    }
  }

  // ---------------------------------------------------------------------------
  // qsap_add_mac_to_file

  /** The valid addresses appended, in input order, until `room` of them have been. */
  function AddedMacs(toks: seq<string>, room: nat): (r: seq<string>)
    ensures |r| <= room
    decreases |toks|
  {
    if toks == [] || room == 0 then []
    else if IsValidMac(toks[0]) then [toks[0]] + AddedMacs(toks[1..], room - 1)
    else AddedMacs(toks[1..], room)
  }

  /** The valid addresses among the tokens. */
  function ValidMacs(toks: seq<string>): seq<string>
    decreases |toks|
  {
    if toks == [] then []
    else (if IsValidMac(toks[0]) then [toks[0]] else []) + ValidMacs(toks[1..])
  }

  /** At most `room` addresses are appended; all of the valid ones when they fit, and
      otherwise the first `room` of them. */
  lemma {:induction false} AddedMacsMeans(toks: seq<string>, room: nat)
    ensures var v := ValidMacs(toks);
            AddedMacs(toks, room) == if |v| <= room then v else v[..room]
    decreases |toks|
  {
    if toks != [] && room > 0 {
      AddedMacsMeans(toks[1..], if IsValidMac(toks[0]) then room - 1 else room);
      var v := ValidMacs(toks[1..]);
      if IsValidMac(toks[0]) && |v| > room - 1 {
        assert ([toks[0]] + v)[..room] == [toks[0]] + v[..room - 1];
      }
    } else if toks != [] {
      var v := ValidMacs(toks);
      assert |v| <= 0 || v[..0] == [];
    }
  }

  /** qsap_add_mac_to_file. The file is created when it does not exist; a file that
      already holds MAX_ALLOWED_MAC lines is left as it is. */
  function AddMacs(fs: Fs, path: string, v: string): Step {
    var lines := if path in fs then fs[path] else [];
    if |lines| >= MaxAllowedMac then Step(fs[path := lines], Failure(Unknown))
    else Step(fs[path := lines + AddedMacs(MacTokens(v), MaxAllowedMac - |lines|)], Ok)
  }

  /** A full file is not changed and the add fails. */
  lemma AddToFullFile(fs: Fs, path: string, v: string)
    requires path in fs && |fs[path]| >= MaxAllowedMac
    ensures AddMacs(fs, path, v) == Step(fs, Failure(Unknown))
  {
    assert fs[path := fs[path]] == fs;
  }

  /** Otherwise the valid addresses are appended in input order, invalid ones skipped,
      until the file holds MAX_ALLOWED_MAC lines; no other file changes. */
  lemma AddAppends(fs: Fs, path: string, v: string)
    requires path !in fs || |fs[path]| < MaxAllowedMac
    ensures var lines := if path in fs then fs[path] else [];
            var r := AddMacs(fs, path, v);
            var valid := ValidMacs(MacTokens(v));
            var room := MaxAllowedMac - |lines|;
            r.resp == Ok && path in r.fs
            && r.fs[path] == lines + (if |valid| <= room then valid else valid[..room])
            && |r.fs[path]| <= MaxAllowedMac
            && forall p :: p in fs && p != path ==> p in r.fs && r.fs[p] == fs[p]
  {
    var lines := if path in fs then fs[path] else [];
    AddedMacsMeans(MacTokens(v), MaxAllowedMac - |lines|);
  }

  /** The first character of a full address is a hex digit, so it is not commented out. */
  lemma FullMacUncommented(m: string)
    requires IsFullMac(m)
    ensures !IsCommented(m)
  {
    ValidMacMeans(m);
  }

  /** The inner loop of qsap_add_mac_to_file: the length of the next address. */
  method TokenEnd(rest: string) returns (i: nat)
    ensures i == TokenLen(rest)
  {
    i := 0;
    while i < |rest| && rest[i] != ' ' && i < MacAddrLen
      invariant i <= |rest| && i <= MacAddrLen
      invariant forall j :: 0 <= j < i ==> rest[j] != ' '
    {
      i := i + 1;
    }
    if i == MacAddrLen {
      SpanAtLeast(rest, i);
    } else {
      SpanAt(rest, i);
    }
  }

  /** The outer loop of qsap_add_mac_to_file, stopping at the end of the text: each valid
      address is appended until the file holds MAX_ALLOWED_MAC lines. */
  method AppendMacs(lines: Lines, v: string) returns (out: Lines)
    requires |lines| < MaxAllowedMac
    ensures out == lines + AddedMacs(MacTokens(v), MaxAllowedMac - |lines|)
  {
    out := lines;
    var count := |lines|;
    var rest := v;
    ghost var target := lines + AddedMacs(MacTokens(v), MaxAllowedMac - |lines|);
    while rest != []
      invariant count == |out| < MaxAllowedMac
      invariant out + AddedMacs(MacTokens(rest), MaxAllowedMac - count) == target
      decreases |rest|
    {
      var i := TokenEnd(rest);
      var macbuf := rest[..i];
      var next := AfterToken(rest);
      AppendRound(out, rest, MaxAllowedMac - count, target);
      if IsValidMac(macbuf) {
        out := out + [macbuf];
        count := count + 1;
        if count == MaxAllowedMac {
          return;
        }
      }
      rest := next;
    }
  }

  /** One round of the outer loop keeps what is left to append. */
  lemma AppendRound(out: Lines, rest: string, room: nat, target: Lines)
    requires rest != [] && room > 0
    requires out + AddedMacs(MacTokens(rest), room) == target
    ensures IsValidMac(MacBuf(rest)) ==>
              (out + [MacBuf(rest)]) + AddedMacs(MacTokens(AfterToken(rest)), room - 1) == target
    ensures !IsValidMac(MacBuf(rest)) ==>
              out + AddedMacs(MacTokens(AfterToken(rest)), room) == target
  {
    var m := MacBuf(rest);
    var toks := MacTokens(AfterToken(rest));
    assert MacTokens(rest) == [m] + toks;
    AddedCons(m, toks, room);
    if IsValidMac(m) {
      var later := AddedMacs(toks, room - 1);
      assert (out + [m]) + later == out + ([m] + later);
    }
  }

  lemma AddedCons(m: string, toks: seq<string>, room: nat)
    requires room > 0
    ensures AddedMacs([m] + toks, room)
            == if IsValidMac(m) then [m] + AddedMacs(toks, room - 1) else AddedMacs(toks, room)
  {
    assert ([m] + toks)[0] == m && ([m] + toks)[1..] == toks;
  }

  /** qsap_add_mac_to_file on the files: the lines are counted, then the addresses
      appended. */
  method AddMacToFile(files: ConfigFiles, path: string, v: string) returns (resp: Response)
    modifies files
    ensures files.fs == AddMacs(old(files.fs), path, v).fs
    ensures resp == AddMacs(old(files.fs), path, v).resp
  {
    var lines := if path in files.fs then files.fs[path] else [];
    // The fgets loop that counts the lines already in the file.
    var count := 0;
    while count < |lines|
      invariant 0 <= count <= |lines|
    {
      count := count + 1;
    }
    assert count == |lines|;
    if count >= MaxAllowedMac {
      files.fs := files.fs[path := lines];
      return Failure(Unknown);
    }
    var out := AppendMacs(lines, v);
    files.fs := files.fs[path := out];
    resp := Ok;
  }

  // ---------------------------------------------------------------------------
  // qsap_remove_from_file

  /** strncmp(a, b, MAC_ADDR_LEN) == 0: the first 17 characters agree, or both strings
      end together before that. */
  predicate Same17(a: string, b: string) {
    (if |a| < MacAddrLen then a else a[..MacAddrLen])
    == (if |b| < MacAddrLen then b else b[..MacAddrLen])
  }

  /** The characters up to the next blank; a tab does not stop it. */
  function SkipWord(t: string): (r: string)
    ensures |r| <= |t| && (t != [] && t[0] != ' ' ==> |r| < |t|)
    ensures r == [] || r[0] == ' '
    decreases |t|
  {
    if t == [] || t[0] == ' ' then t else SkipWord(t[1..])
  }

  /** The next position the comparison loop tries: past the word and the blanks after it. */
  function NextStart(t: string): (r: string)
    requires t != []
    ensures |r| < |t|
  {
    SkipBlanks(SkipWord(t))
  }

  /** Whether the line in `buf` compares equal with the value at some position the loop
      tries, from `t` on. */
  predicate Listed(buf: string, t: string)
    decreases |t|
  {
    t != [] && (Same17(buf, t) || Listed(buf, NextStart(t)))
  }

  /** The lines written back: those no position of the value matches. The line is
      compared as fgets() read it, with its newline. */
  function RemoveMacs(lines: Lines, v: string): (r: Lines)
    ensures |r| <= |lines|
    decreases |lines|
  {
    if lines == [] then []
    else (if Listed(lines[0] + "\n", v) then [] else [lines[0]]) + RemoveMacs(lines[1..], v)
  }

  /** qsap_remove_from_file; the rename over the original succeeds. */
  function RemoveFromFile(fs: Fs, path: string, v: string): (r: Step)
    ensures path !in fs ==> r == Step(fs, Failure(ResUnavailable))
    ensures path in fs ==> r.resp == Ok && r.fs == fs[path := RemoveMacs(fs[path], v)]
  {
    if path !in fs then Step(fs, Failure(ResUnavailable))
    else Step(fs[path := RemoveMacs(fs[path], v)], Ok)
  }

  /** A line is kept exactly when no position of the value matches it. */
  lemma {:induction false} RemoveMeans(lines: Lines, v: string, line: string)
    ensures line in RemoveMacs(lines, v) <==> line in lines && !Listed(line + "\n", v)
    decreases |lines|
  {
    if lines != [] {
      RemoveMeans(lines[1..], v, line);
      assert lines == [lines[0]] + lines[1..];
    }
  }

  /** Removing the same addresses twice removes nothing more. */
  lemma {:induction false} RemoveIdempotent(lines: Lines, v: string)
    ensures RemoveMacs(RemoveMacs(lines, v), v) == RemoveMacs(lines, v)
    decreases |lines|
  {
    if lines != [] {
      RemoveIdempotent(lines[1..], v);
      var head := if Listed(lines[0] + "\n", v) then [] else [lines[0]];
      var r := RemoveMacs(lines[1..], v);
      RemoveAppend(head, r, v);
      if head != [] {
        assert RemoveMacs(head, v) == head by {
          assert head[1..] == [];
        }
      }
    }
  }

  lemma {:induction false} RemoveAppend(a: Lines, b: Lines, v: string)
    ensures RemoveMacs(a + b, v) == RemoveMacs(a, v) + RemoveMacs(b, v)
    decreases |a|
  {
    if a != [] {
      RemoveAppend(a[1..], b, v);
      assert (a + b)[0] == a[0] && (a + b)[1..] == a[1..] + b;
      var h := if Listed(a[0] + "\n", v) then [] else [a[0]];
      var x := RemoveMacs(a[1..], v);
      var y := RemoveMacs(b, v);
      assert RemoveMacs(a + b, v) == h + (x + y);
      assert RemoveMacs(a, v) == h + x;
      assert h + (x + y) == (h + x) + y;
    } else {
      assert a + b == b;
    }
  }

  /** A full address matches itself as the line the add wrote. */
  lemma FullMacListed(m: string)
    requires IsFullMac(m)
    ensures Listed(m + "\n", m)
  {
    assert (m + "\n")[..MacAddrLen] == m;
    assert m[..MacAddrLen] == m;
  }

  /** Removing one address after adding it to a file that had room gives the file that
      removing it from the original gives. */
  lemma RemoveAfterAdd(fs: Fs, path: string, m: string)
    requires IsFullMac(m)
    requires path !in fs || |fs[path]| < MaxAllowedMac
    ensures var lines := if path in fs then fs[path] else [];
            var added := AddMacs(fs, path, m).fs;
            RemoveFromFile(added, path, m).fs[path] == RemoveMacs(lines, m)
  {
    var lines := if path in fs then fs[path] else [];
    var room := MaxAllowedMac - |lines|;
    assert AddMacs(fs, path, m).fs[path] == lines + AddedMacs(MacTokens(m), room);
    RemoveAfterAppend(lines, m, room);
  }

  /** The line the add of one full address appends is the line its removal drops. */
  lemma RemoveAfterAppend(lines: Lines, m: string, room: nat)
    requires IsFullMac(m) && room > 0
    ensures RemoveMacs(lines + AddedMacs(MacTokens(m), room), m) == RemoveMacs(lines, m)
  {
    assert MacTokens(m) == [m] by {
      FullMacNoBlank(m);
      SpanAt(m, MacAddrLen);
      assert m[..MacAddrLen] == m;
    }
    assert AddedMacs([m], room) == [m] by {
      AddedCons(m, [], room);
      assert [m] + [] == [m];
    }
    RemoveAppend(lines, [m], m);
    assert RemoveMacs([m], m) == [] by {
      FullMacListed(m);
      assert [m][1..] == [];
    }
    assert RemoveMacs(lines, m) + [] == RemoveMacs(lines, m);
  }

  /** The comparison loop of qsap_remove_from_file for one line. */
  method ListedLoop(buf: string, v: string) returns (hit: bool)
    ensures hit == Listed(buf, v)
  {
    var plist := v;
    while plist != []
      invariant Listed(buf, plist) == Listed(buf, v)
      decreases |plist|
    {
      if Same17(buf, plist) {
        return true;
      }
      var word := plist;
      while plist != [] && plist[0] != ' '
        invariant SkipWord(plist) == SkipWord(word) && |plist| <= |word|
        decreases |plist|
      {
        plist := plist[1..];
      }
      while plist != [] && IsBlank(plist[0])
        invariant SkipBlanks(plist) == NextStart(word) && |plist| <= |word|
        decreases |plist|
      {
        plist := plist[1..];
      }
    }
    return false;
  }

  /** The copy loop of qsap_remove_from_file: the lines no position of the value
      matches, each compared as fgets() read it. */
  method RemoveLoop(lines: Lines, v: string) returns (out: Lines)
    ensures out == RemoveMacs(lines, v)
  {
    out := [];
    var i := 0;
    while i < |lines|
      invariant 0 <= i <= |lines|
      invariant out + RemoveMacs(lines[i..], v) == RemoveMacs(lines, v)
    {
      var hit := ListedLoop(lines[i] + "\n", v);
      RemoveRound(out, lines, i, v, RemoveMacs(lines, v));
      if !hit {
        out := out + [lines[i]];
      }
      i := i + 1;
    }
    assert lines[i..] == [];
  }

  /** One round of the copy loop keeps what is left to copy. */
  lemma RemoveRound(out: Lines, lines: Lines, i: nat, v: string, target: Lines)
    requires i < |lines| && out + RemoveMacs(lines[i..], v) == target
    ensures Listed(lines[i] + "\n", v) ==> out + RemoveMacs(lines[i + 1..], v) == target
    ensures !Listed(lines[i] + "\n", v) ==>
              (out + [lines[i]]) + RemoveMacs(lines[i + 1..], v) == target
  {
    var later := RemoveMacs(lines[i + 1..], v);
    var h := if Listed(lines[i] + "\n", v) then [] else [lines[i]];
    assert RemoveMacs(lines[i..], v) == h + later by {
      assert lines[i..][0] == lines[i] && lines[i..][1..] == lines[i + 1..];
    }
    if h == [] {
      assert h + later == later;
    } else {
      assert (out + [lines[i]]) + later == out + (h + later);
    }
  }

  /** qsap_remove_from_file on the files. */
  method RemoveMacFromFile(files: ConfigFiles, path: string, v: string) returns (resp: Response)
    modifies files
    ensures files.fs == RemoveFromFile(old(files.fs), path, v).fs
    ensures resp == RemoveFromFile(old(files.fs), path, v).resp
  {
    if path !in files.fs {
      return Failure(ResUnavailable);
    }
    var out := RemoveLoop(files.fs[path], v);
    files.fs := files.fs[path := out];
    resp := Ok;
  }

  // ---------------------------------------------------------------------------
  // qsap_get_mac_list

  /** A line the listing takes: not commented out, and a valid address as fgets() read
      it. */
  predicate Listable(line: string) {
    !IsCommented(line) && IsValidMac(line + "\n")
  }

  /** The lines listed: the listable ones, in file order, at most `room` of them. */
  function ListedMacs(lines: Lines, room: nat): (r: seq<string>)
    ensures |r| <= room
    decreases |lines|
  {
    if lines == [] || room == 0 then []
    else if Listable(lines[0]) then [lines[0]] + ListedMacs(lines[1..], room - 1)
    else ListedMacs(lines[1..], room)
  }

  /** qsap_get_mac_list. The response lists each address followed by a blank; the name
      is that of the list command. */
  function GetMacList(fs: Fs, conf: string, c: Cmd): Response {
    if c != AllowList && c != DenyList then Failure(Unknown)
    else
      var entry := if c == AllowList then AcceptMacFile else DenyMacFile;
      match ListFilePath(fs, conf, entry)
      case None => Failure(ResUnavailable)
      case Some(path) =>
        if path !in fs then Failure(ResUnavailable)
        else Success(Name(c) + "=" + JoinBlank(ListedMacs(fs[path], MaxAllowedMac)))
  }

  /** Every listed address is a listable line of the file. */
  lemma {:induction false} ListedAreListable(lines: Lines, room: nat)
    ensures forall k :: 0 <= k < |ListedMacs(lines, room)| ==>
              ListedMacs(lines, room)[k] in lines && Listable(ListedMacs(lines, room)[k])
    decreases |lines|
  {
    if lines != [] && room > 0 {
      ListedAreListable(lines[1..], if Listable(lines[0]) then room - 1 else room);
    }
  }

  /** A file made of full addresses, as the add writes them, lists as it is while it
      holds no more than the cap. */
  lemma {:induction false} ListedFull(lines: Lines, room: nat)
    requires forall k :: 0 <= k < |lines| ==> IsFullMac(lines[k])
    requires |lines| <= room
    ensures ListedMacs(lines, room) == lines
    decreases |lines|
  {
    if lines != [] {
      assert Listable(lines[0]) by {
        FullMacUncommented(lines[0]);
        ValidMacPrefix(lines[0], "\n");
      }
      assert ListedMacs(lines, room) == [lines[0]] + ListedMacs(lines[1..], room - 1);
      ListedFull(lines[1..], room - 1);
      assert lines == [lines[0]] + lines[1..];
    }
  }

  /** The addresses the add appends are full addresses. */
  lemma {:induction false} AddedFull(t: string, room: nat)
    ensures forall k :: 0 <= k < |AddedMacs(MacTokens(t), room)| ==>
              IsFullMac(AddedMacs(MacTokens(t), room)[k])
    decreases |t|
  {
    if t != [] && room > 0 {
      var m := MacBuf(t);
      var toks := MacTokens(AfterToken(t));
      assert MacTokens(t) == [m] + toks;
      AddedCons(m, toks, room);
      AddedFull(AfterToken(t), if IsValidMac(m) then room - 1 else room);
    }
  }

  /** The list after an add to a file of full addresses with room is the old file
      followed by the added addresses. */
  lemma ListAfterAdd(fs: Fs, path: string, v: string)
    requires path in fs && |fs[path]| < MaxAllowedMac
    requires forall k :: 0 <= k < |fs[path]| ==> IsFullMac(fs[path][k])
    ensures var r := AddMacs(fs, path, v).fs;
            ListedMacs(r[path], MaxAllowedMac) == r[path]
            && |fs[path]| <= |r[path]| && r[path][..|fs[path]|] == fs[path]
  {
    var lines := fs[path];
    var added := AddedMacs(MacTokens(v), MaxAllowedMac - |lines|);
    var all := lines + added;
    assert forall k :: 0 <= k < |all| ==> IsFullMac(all[k]) by {
      AddedFull(v, MaxAllowedMac - |lines|);
      forall k | 0 <= k < |all|
        ensures IsFullMac(all[k])
      {
        if k >= |lines| {
          assert all[k] == added[k - |lines|];
        }
      }
    }
    ListedFull(all, MaxAllowedMac);
    assert all[..|lines|] == lines;
  }

  /** The listing loop of qsap_get_mac_list: each listable line and a blank, up to
      MAX_ALLOWED_MAC of them. */
  method ListLoop(lines: Lines) returns (text: string)
    ensures text == JoinBlank(ListedMacs(lines, MaxAllowedMac))
  {
    text := [];
    var cnt := 0;
    var i := 0;
    while i < |lines|
      invariant 0 <= i <= |lines| && 0 <= cnt < MaxAllowedMac
      invariant text + JoinBlank(ListedMacs(lines[i..], MaxAllowedMac - cnt))
                == JoinBlank(ListedMacs(lines, MaxAllowedMac))
    {
      var buf := lines[i];
      assert lines[i..][1..] == lines[i + 1..];
      if IsCommented(buf) || !IsValidMac(buf + "\n") {
        i := i + 1;
        continue;
      }
      var rest := ListedMacs(lines[i + 1..], MaxAllowedMac - cnt - 1);
      assert JoinBlank([buf] + rest) == buf + " " + JoinBlank(rest);
      text := text + (buf + " ");
      cnt := cnt + 1;
      if cnt >= MaxAllowedMac {
        assert ListedMacs(lines[i + 1..], 0) == [];
        return;
      }
      i := i + 1;
    }
    assert lines[i..] == [];
  }
}
