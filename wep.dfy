/** WEP keys: is_valid_wep_key checks a key and gives the form stored in the
    configuration file; qsap_read_wep_key strips the quotes of that form again. */
module Wep {
  import opened Text
  import opened Protocol
  import opened LineStore
  import opened Store

  /** WEP_64_KEY_ASCII, WEP_128_KEY_ASCII, WEP_152_KEY_ASCII: 5, 13 or 16 characters. */
  predicate IsAsciiLen(n: int) { n == 5 || n == 13 || n == 16 }

  /** WEP_64_KEY_HEX, WEP_128_KEY_HEX, WEP_152_KEY_HEX: 10, 26 or 32 digits. */
  predicate IsHexLen(n: int) { n == 10 || n == 26 || n == 32 }

  /** The key without surrounding double quotes. A lone quote is both the first and the
      last character, and leaves nothing. */
  function Unquoted(key: string): (w: string)
    ensures |w| <= |key|
  {
    if key != [] && key[0] == '"' && key[|key| - 1] == '"' then
      (if |key| >= 2 then key[1..|key| - 1] else [])
    else key
  }

  /** The ASCII form is stored between double quotes. */
  function Quoted(w: string): string { "\"" + w + "\"" }

  predicate AllAscii(s: string) { forall j :: 0 <= j < |s| ==> IsAscii(s[j]) }

  predicate AllHex(s: string) { forall j :: 0 <= j < |s| ==> IsHexDigit(s[j]) }

  /** is_valid_wep_key, as intended: the form to store, or `None` for a key that is
      refused. */
  function WepKey(key: string): (r: Option<string>) {
    var w := Unquoted(key);
    if IsAsciiLen(|w|) then (if AllAscii(w) then Some(Quoted(w)) else None)
    else if IsHexLen(|w|) then (if AllHex(w) then Some(w) else None)
    else None
  }

  /** is_valid_wep_key as written: the ASCII branch decrements the length once before
      its `while (weplen--)` loop, so the last character is never examined. */
  function WepKeyAsWritten(key: string): (r: Option<string>) {
    var w := Unquoted(key);
    if IsAsciiLen(|w|) then (if AllAscii(w[..|w| - 1]) then Some(Quoted(w)) else None)
    else if IsHexLen(|w|) then (if AllHex(w) then Some(w) else None)
    else None
  }

  /** A key is accepted exactly when, without its quotes, it has an ASCII length and
      only ASCII characters, or a hex length and only hex digits; an ASCII key is
      stored quoted and a hex key as it is. */
  lemma WepKeyMeans(key: string)
    ensures var w := Unquoted(key);
            WepKey(key).Some?
            <==> (IsAsciiLen(|w|) && AllAscii(w)) || (IsHexLen(|w|) && AllHex(w))
    ensures var w := Unquoted(key);
            WepKey(key).Some? ==> WepKey(key).value == if IsAsciiLen(|w|) then Quoted(w) else w
  {
  }

  /** The check as written accepts every key the intended check accepts, and stores it
      in the same form. */
  lemma AsWrittenAcceptsMore(key: string)
    requires WepKey(key).Some?
    ensures WepKeyAsWritten(key) == WepKey(key)
  {
    var w := Unquoted(key);
    if IsAsciiLen(|w|) {
      assert forall j :: 0 <= j < |w| - 1 ==> w[..|w| - 1][j] == w[j];
    }
  }

  /** Four ASCII characters followed by a character outside ASCII: the check as written
      accepts the key, the intended check refuses it. */
  lemma AsWrittenLastCharExample()
    ensures var key := "abcd" + [233 as char];
            WepKeyAsWritten(key) == Some(Quoted(key)) && WepKey(key) == None
  {
    var key := "abcd" + [233 as char];
    assert Unquoted(key) == key;
    assert key[..4] == "abcd";
    assert !IsAscii(key[4]);
  }

  /** The length checks and the scan of is_valid_wep_key. */
  method IsValidWepKey(key: string) returns (r: Option<string>)
    ensures r == WepKey(key)
  {
    var w := Unquoted(key);
    var n := |w|;
    if IsAsciiLen(n) {
      var j := n;
      while j > 0
        invariant 0 <= j <= n
        invariant forall m :: j <= m < n ==> IsAscii(w[m])
      {
        j := j - 1;
        if !IsAscii(w[j]) {
          return None;
        }
      }
      return Some(Quoted(w));
    } else if IsHexLen(n) {
      var j := n;
      while j > 0
        invariant 0 <= j <= n
        invariant forall m :: j <= m < n ==> IsHexDigit(w[m])
      {
        j := j - 1;
        if !IsHexDigit(w[j]) {
          return None;
        }
      }
      return Some(w);
    }
    return None;
  }

  // ---------------------------------------------------------------------------
  // qsap_read_wep_key

  /** The text up to and including the first '='. */
  function UpToEq(s: string): (r: string)
    ensures |r| <= |s|
  {
    if s == [] then [] else if s[0] == '=' then "=" else [s[0]] + UpToEq(s[1..])
  }

  lemma {:induction false} SplitAtEq(s: string)
    requires '=' in s
    ensures s == UpToEq(s) + AfterEq(s) && UpToEq(s) != [] && UpToEq(s)[|UpToEq(s)| - 1] == '='
  {
    if s[0] != '=' {
      assert s == [s[0]] + s[1..];
      SplitAtEq(s[1..]);
    }
  }

  lemma {:induction false} UpToKeyEq(key: string, v: string)
    requires '=' !in key
    ensures UpToEq(key + "=" + v) == key + "="
  {
    if key != [] {
      assert (key + "=" + v)[1..] == key[1..] + "=" + v;
      UpToKeyEq(key[1..], v);
    } else {
      assert key + "=" + v == "=" + v;
    }
  }

  /** What qsap_read_wep_key leaves of an answer: when the value after the first '='
      starts with a quote, that quote and the last character are removed. */
  function StripWep(s: string): (r: string) {
    if '=' !in s then s
    else
      var v := AfterEq(s);
      if v != [] && v[0] == '"' then
        var u := UpToEq(s) + v[1..];
        if u == [] then [] else u[..|u| - 1]
      else s
  }

  /** Stripping undoes the quoting of an ASCII key and leaves a hex key as it is. */
  lemma StripStored(key: string, w: string, ascii: bool)
    requires '=' !in key
    requires !ascii ==> w == [] || w[0] != '"'
    ensures StripWep(key + "=" + (if ascii then Quoted(w) else w)) == key + "=" + w
  {
    var v := if ascii then Quoted(w) else w;
    var s := key + "=" + v;
    assert s[|key|] == '=';
    AfterKeyEq(key, v);
    if ascii {
      UpToKeyEq(key, v);
      assert v[1..] == w + "\"";
      assert key + "=" + w + "\"" == (key + "=" + w) + "\"";
    }
  }

  /** The result of the read that qsap_read_wep_key starts with. */
  function ReadWep(fs: Fs, conf: string, cmd: Command): Response {
    match ReadCfg(fs, conf, cmd, None, true)
    case Success(text) => Success(StripWep(text))
    case Failure(reason) => Failure(reason)
  }

  /** A key accepted and written is read back without its quotes, when it has no line
      feed in it. */
  lemma ReadWepAfterWrite(fs: Fs, conf: string, cmd: Command, key: string)
    requires conf in fs && IsKey(cmd.name)
    requires WepKey(key).Some? && '\n' !in key
    ensures ReadWep(WriteCfg(fs, conf, cmd.name, WepKey(key).value, false).fs, conf, cmd)
            == Success(cmd.name + "=" + Unquoted(key))
  {
    var w := Unquoted(key);
    var stored := WepKey(key).value;
    assert OneLine(stored) by {
      assert stored[|stored| - 1] == if IsAsciiLen(|w|) then '"' else w[|w| - 1];
    }
    ReadAfterWrite(fs[conf], cmd.name, stored, false, cmd.dflt, None, true);
    if IsAsciiLen(|w|) {
      StripStored(cmd.name, w, true);
    } else {
      assert IsHexDigit(w[0]);
      StripStored(cmd.name, w, false);
    }
  }

  /** A key without a line feed is stored as one line. */
  lemma StoredOneLine(key: string)
    requires WepKey(key).Some? && '\n' !in key
    ensures OneLine(WepKey(key).value)
  {
    var w := Unquoted(key);
    var stored := WepKey(key).value;
    assert forall i :: 0 <= i < |w| ==> w[i] in key;
    assert stored[|stored| - 1] == if IsAsciiLen(|w|) then '"' else w[|w| - 1];
  }

  /** The key stays readable when the entry is commented out afterwards, as a set does
      when the security mode is not WEP. */
  lemma ReadWepAfterDisable(fs: Fs, conf: string, cmd: Command, key: string)
    requires conf in fs && IsKey(cmd.name)
    requires WepKey(key).Some? && '\n' !in key
    ensures var written := WriteCfg(fs, conf, cmd.name, WepKey(key).value, false).fs;
            ChangeCfg(written, conf, cmd.name, false).Some?
            && ReadWep(ChangeCfg(written, conf, cmd.name, false).value, conf, cmd)
               == Success(cmd.name + "=" + Unquoted(key))
  {
    var written := WriteCfg(fs, conf, cmd.name, WepKey(key).value, false).fs;
    ReadWepAfterWrite(fs, conf, cmd, key);
    ToggleKeepsValue(written[conf], cmd.name, false, cmd.dflt, None);
  }

  /** The first '=' at `i` splits the answer there. */
  lemma {:induction false} SplitAt(s: string, i: nat)
    requires i < |s| && s[i] == '='
    requires forall j :: 0 <= j < i ==> s[j] != '='
    ensures UpToEq(s) == s[..i + 1] && AfterEq(s) == s[i + 1..]
    decreases i
  {
    if i > 0 {
      SplitAt(s[1..], i - 1);
      assert s[..i + 1] == [s[0]] + s[1..][..i];
      assert s[1..][i..] == s[i + 1..];
    }
  }

  /** The in-place rewrite of qsap_read_wep_key on the answer held in `buf[..n]`: it
      finds the first '=', and when a quote follows, moves the rest one place left and
      cuts the last character. The new length is returned. */
  method StripWepInPlace(buf: array<char>, n: nat) returns (m: nat)
    requires n <= buf.Length
    modifies buf
    ensures m <= buf.Length && buf[..m] == StripWep(old(buf[..n]))
  {
    ghost var s := buf[..n];
    var i := 0;
    while i < n && buf[i] != '='
      invariant 0 <= i <= n
      invariant forall j :: 0 <= j < i ==> s[j] != '='
    {
      i := i + 1;
    }
    if i == n {
      assert '=' !in s by {
        forall j | 0 <= j < n ensures s[j] != '=' { }
      }
      assert buf[..n] == s;
      return n;
    }
    StripAt(s, i);
    if i + 1 == n || buf[i + 1] != '"' {
      assert buf[..n] == s;
      return n;
    }
    var k := i + 1;
    while k + 1 < n
      invariant i + 1 <= k < n
      invariant forall j :: 0 <= j <= i ==> buf[j] == s[j]
      invariant forall j :: i + 1 <= j < k ==> buf[j] == s[j + 1]
      invariant forall j :: k <= j < n ==> buf[j] == s[j]
    {
      buf[k] := buf[k + 1];
      k := k + 1;
    }
    m := n - 2;
    ghost var u := s[..i + 1] + s[i + 2..];
    assert forall j :: 0 <= j < m ==> buf[j] == u[j];
    assert buf[..m] == u[..m];
  }

  /** Stripping an answer whose first '=' is at `i`: the quote after it and the last
      character go, or nothing changes when no quote follows. */
  lemma StripAt(s: string, i: nat)
    requires i < |s| && s[i] == '='
    requires forall j :: 0 <= j < i ==> s[j] != '='
    ensures StripWep(s) == if i + 1 < |s| && s[i + 1] == '"' then (s[..i + 1] + s[i + 2..])[..|s| - 2] else s
  {
    SplitAt(s, i);
    assert '=' in s;
  }
}
