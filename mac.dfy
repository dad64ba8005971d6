/** MAC addresses: the text form `XX:XX:XX:XX:XX:XX` that isValid_MAC_address accepts,
    the hexadecimal conversion atoh, the text-to-bytes conversion qsap_get_mac_in_bytes
    and the bytes-to-text conversion qsap_mac_to_macstr. A byte is an `int` in 0..255,
    the bit pattern of the C `char`. */
module Mac {
  import opened Text
  import opened Protocol
  import opened Tables

  /** The positions of the colons in a MAC address. */
  predicate IsColonPos(i: int) { i == 2 || i == 5 || i == 8 || i == 11 || i == 14 }

  /** What isValid_MAC_address requires of the character at position `i`. */
  predicate MacCharOk(s: string, i: nat)
    requires i < |s|
  {
    if IsColonPos(i) then s[i] == ':' else IsHexDigit(s[i])
  }

  /** The loop of isValid_MAC_address from position `i` up to MAC_ADDR_LEN. */
  predicate MacScan(s: string, i: nat)
    requires i <= MacAddrLen <= |s|
    decreases MacAddrLen - i
  {
    i == MacAddrLen || (MacCharOk(s, i) && MacScan(s, i + 1))
  }

  /** isValid_MAC_address, as its loop over the first 17 characters. */
  predicate IsValidMac(s: string) {
    |s| >= MacAddrLen && MacScan(s, 0)
  }

  /** The loop from `i` on accepts when every position from `i` on is acceptable. */
  lemma {:induction false} MacScanMeans(s: string, i: nat)
    requires i <= MacAddrLen <= |s|
    ensures MacScan(s, i) <==> forall j :: i <= j < MacAddrLen ==> MacCharOk(s, j)
    decreases MacAddrLen - i
  {
    if i < MacAddrLen {
      MacScanMeans(s, i + 1);
    }
  }

  /** isValid_MAC_address accepts exactly the strings of at least 17 characters with
      colons at 2, 5, 8, 11 and 14 and hex digits at every other position below 17; what
      follows is not looked at. */
  lemma ValidMacMeans(s: string)
    ensures IsValidMac(s)
            <==> (|s| >= MacAddrLen
                  && (forall j :: 0 <= j < MacAddrLen && IsColonPos(j) ==> s[j] == ':')
                  && (forall j :: 0 <= j < MacAddrLen && !IsColonPos(j) ==> IsHexDigit(s[j])))
  {
    if |s| >= MacAddrLen {
      MacScanMeans(s, 0);
      MacCharsSplit(s);
    }
  }

  lemma MacCharsSplit(s: string)
    requires |s| >= MacAddrLen
    ensures (forall j :: 0 <= j < MacAddrLen ==> MacCharOk(s, j))
            <==> (forall j :: 0 <= j < MacAddrLen && IsColonPos(j) ==> s[j] == ':')
                 && (forall j :: 0 <= j < MacAddrLen && !IsColonPos(j) ==> IsHexDigit(s[j]))
  {
    if forall j :: 0 <= j < MacAddrLen ==> MacCharOk(s, j) {
      forall j | 0 <= j < MacAddrLen && IsColonPos(j) ensures s[j] == ':' {
        assert MacCharOk(s, j);
      }
      forall j | 0 <= j < MacAddrLen && !IsColonPos(j) ensures IsHexDigit(s[j]) {
        assert MacCharOk(s, j);
      }
    }
  }

  /** Only the first 17 characters decide. */
  lemma ValidMacPrefix(s: string, t: string)
    requires IsValidMac(s)
    ensures IsValidMac(s[..MacAddrLen] + t) && IsValidMac(s + t)
  {
    var u := s[..MacAddrLen] + t;
    var w := s + t;
    ValidMacMeans(s);
    ValidMacMeans(u);
    ValidMacMeans(w);
    assert forall j :: 0 <= j < MacAddrLen ==> u[j] == s[j] && w[j] == s[j];
  }

  // ---------------------------------------------------------------------------
  // atoh

  /** The value of one character to atoh; any other character counts as 0. */
  function HexValue(c: char): (v: nat)
    ensures v < 16
  {
    if IsDigit(c) then c as int - '0' as int
    else if 'a' <= c <= 'f' then c as int - 'a' as int + 10
    else if 'A' <= c <= 'F' then c as int - 'A' as int + 10
    else 0
  }

  function Pow16(k: nat): (p: nat)
    ensures p >= 1
  {
    if k == 0 then 1 else 16 * Pow16(k - 1)
  }

  /** `v << 4 * n`, as repeated multiplication by 16. */
  function Shl4(v: nat, n: nat): nat {
    if n == 0 then v else 16 * Shl4(v, n - 1)
  }

  /** atoh's u32 sum: the value of each character shifted left by four bits per
      character after it, added modulo 2^32. The loop adds them from the last character
      on; a sum modulo 2^32 does not depend on that order. */
  function AtohSum(s: string): (v: nat)
    requires |s| <= 8
    ensures v < U32
  {
    if s == [] then 0 else (Shl4(HexValue(s[0]), |s| - 1) % U32 + AtohSum(s[1..])) % U32
  }

  /** The u32 result returned as s32. */
  function ToS32(v: int): int
    requires 0 <= v < U32
  {
    if v >= 0x8000_0000 then v - U32 else v
  }

  /** atoh. A shift by 32 bits or more is undefined in C, so at most eight characters. */
  function Atoh(s: string): int
    requires |s| <= 8
  {
    ToS32(AtohSum(s))
  }

  /** The number the characters denote in base 16, read from the left. */
  function HexNumber(s: string): nat {
    if s == [] then 0 else HexNumber(s[..|s| - 1]) * 16 + HexValue(s[|s| - 1])
  }

  lemma {:induction false} HexNumberBound(s: string)
    ensures HexNumber(s) < Pow16(|s|)
  {
    if s != [] {
      HexNumberBound(s[..|s| - 1]);
    }
  }

  /** The leading digit of a number in base 16 is shifted by four bits per digit after it. */
  lemma {:induction false} HexNumberCons(c: char, t: string)
    ensures HexNumber([c] + t) == Shl4(HexValue(c), |t|) + HexNumber(t)
    decreases |t|
  {
    var s := [c] + t;
    if t != [] {
      var t' := t[..|t| - 1];
      assert s[..|s| - 1] == [c] + t';
      assert s[|s| - 1] == t[|t| - 1];
      HexNumberCons(c, t');
    } else {
      assert s[..|s| - 1] == [];
    }
  }

  /** A digit shifted by n places stays below 16^(n+1) minus 16^n. */
  lemma {:induction false} Shl4Bound(d: nat, n: nat)
    requires d < 16
    ensures Shl4(d, n) + Pow16(n) <= Pow16(n + 1)
  {
    if n > 0 {
      Shl4Bound(d, n - 1);
    }
  }

  lemma {:induction false} Pow16Mono(a: nat, b: nat)
    requires a <= b
    ensures Pow16(a) <= Pow16(b)
    decreases b
  {
    if a < b {
      Pow16Mono(a, b - 1);
    }
  }

  /** The shifted sum is the base-16 number. */
  lemma {:induction false} AtohSumValue(s: string)
    requires |s| <= 8
    ensures AtohSum(s) == HexNumber(s)
  {
    if s != [] {
      var c := s[0];
      var t := s[1..];
      AtohSumValue(t);
      assert s == [c] + t;
      HexNumberCons(c, t);
      HexNumberBound(t);
      Shl4Bound(HexValue(c), |t|);
      Pow16AtMostU32(|s|);
      AddNoWrap(HexNumber(t), Shl4(HexValue(c), |t|), Pow16(|t|), Pow16(|s|));
    }
  }

  /** Adding a shifted digit to a smaller accumulator does not wrap around. */
  lemma AddNoWrap(acc: nat, x: nat, p: nat, q: nat)
    requires acc < p && x + p <= q <= U32
    ensures (x % U32 + acc) % U32 == x + acc
  {
    ModSmall(x);
    ModSmall(acc + x);
  }

  /** Up to eight hex digits fit in a u32. */
  lemma Pow16AtMostU32(k: nat)
    requires k <= 8
    ensures Pow16(k) <= U32
  {
    Pow16Mono(k, 8);
    assert Pow16(8) == U32;
  }

  lemma ModSmall(v: int)
    requires 0 <= v < U32
    ensures v % U32 == v
  {
  }

  /** atoh is the base-16 value of its argument, as an s32, with characters that are not
      hex digits counting as 0. */
  lemma AtohIsHexNumber(s: string)
    requires |s| <= 8
    ensures HexNumber(s) < U32
    ensures Atoh(s) == ToS32(HexNumber(s))
  {
    AtohSumValue(s);
  }

  // ---------------------------------------------------------------------------
  // qsap_get_mac_in_bytes

  /** The text from position `n` on; empty once `n` is past the end. */
  function Drop(s: string, n: nat): string {
    if n <= |s| then s[n..] else []
  }

  /** The characters copied into the two-character buffer for atoh at the head of `t`; at
      the last character the second one is the terminator. */
  function Pair(t: string): (p: string)
    requires t != []
    ensures 1 <= |p| <= 2 && |p| <= |t| && p == t[..|p|]
  {
    if |t| >= 2 then t[..2] else t
  }

  /** The byte stored for the characters `p`: the low eight bits of atoh's result. */
  function StoredByte(p: string): int
    requires |p| <= 2
  {
    Atoh(p) % 256
  }

  /** The bytes the loop of qsap_get_mac_in_bytes stores from the remaining text `t`: a
      colon is skipped, any other character starts a pair, and the loop goes on three
      characters further. */
  function BytesOf(t: string): seq<int>
    decreases |t|
  {
    if t == [] then []
    else if t[0] == ':' then BytesOf(t[1..])
    else [StoredByte(Pair(t))] + BytesOf(Drop(t, 3))
  }

  /** qsap_get_mac_in_bytes: `None` where it returns FALSE. The terminating zero byte it
      stores after the last byte is not part of the result. */
  function MacInBytes(s: string): Option<seq<int>> {
    if !IsValidMac(s) then None else Some(BytesOf(s))
  }

  /** One step of the loop at position i. */
  lemma BytesOfAt(s: string, i: nat)
    requires i < |s|
    ensures s[i] == ':' ==> BytesOf(Drop(s, i)) == BytesOf(Drop(s, i + 1))
    ensures s[i] != ':' ==> BytesOf(Drop(s, i)) == [StoredByte(Pair(s[i..]))] + BytesOf(Drop(s, i + 3))
  {
    var rest := s[i..];
    assert Drop(s, i) == rest && rest[0] == s[i];
    assert rest[1..] == Drop(s, i + 1);
    DropDrop(s, i, 3);
  }

  /** qsap_get_mac_in_bytes as its loop over the characters. */
  method GetMacInBytes(s: string) returns (ok: bool, bytes: seq<int>)
    ensures ok <==> IsValidMac(s)
    ensures ok ==> MacInBytes(s) == Some(bytes)
  {
    if !IsValidMac(s) {
      return false, [];
    }
    bytes := [];
    var i := 0;
    while i < |s|
      invariant 0 <= i <= |s| + 2
      invariant bytes + BytesOf(Drop(s, i)) == BytesOf(s)
      decreases |s| - i
    {
      BytesOfAt(s, i);
      if s[i] == ':' {
        i := i + 1;
        continue;
      }
      var pair := [s[i]] + (if i + 1 < |s| then [s[i + 1]] else []);
      assert pair == Pair(s[i..]);
      var b := StoredByte(pair);
      assert (bytes + [b]) + BytesOf(Drop(s, i + 3)) == bytes + ([b] + BytesOf(Drop(s, i + 3)));
      bytes := bytes + [b];
      i := i + 3;
    }
    assert Drop(s, i) == [];
    assert bytes == BytesOf(s);
    ok := true;
  }

  /** The byte two hex digits denote, the first one the high four bits. */
  function PairByte(hi: char, lo: char): nat {
    16 * HexValue(hi) + HexValue(lo)
  }

  /** The byte stored for two hex digits is the byte they denote. */
  lemma {:induction false} PairValue(t: string)
    requires |t| >= 2 && IsHexDigit(t[0]) && IsHexDigit(t[1])
    ensures StoredByte(Pair(t)) == PairByte(t[0], t[1])
  {
    var p := t[..2];
    AtohIsHexNumber(p);
    assert p[..1] == [t[0]];
    assert HexNumber([t[0]]) == HexValue(t[0]) by {
      assert [t[0]][..0] == [];
    }
    assert HexNumber(p) == PairByte(t[0], t[1]);
  }

  /** A valid MAC address of 17 characters gives its six bytes, each the value of the two
      hex digits of its group. */
  lemma {:induction false} MacInBytesSix(s: string)
    requires IsValidMac(s) && |s| == MacAddrLen
    ensures MacInBytes(s) == Some(GroupValues(s))
  {
    GroupBytes(s);
    assert Drop(s, 18) == [];
    assert GroupValues(s) + [] == GroupValues(s);
  }

  /** The six byte values the groups of a valid MAC address denote. */
  function GroupValues(s: string): (r: seq<int>)
    requires IsValidMac(s)
    ensures |r| == 6
  {
    seq(6, k requires 0 <= k < 6 => PairByte(s[3 * k], s[3 * k + 1]))
  }

  /** The two characters of group k of a valid MAC address are hex digits. */
  lemma GroupDigits(s: string, k: nat)
    requires IsValidMac(s) && k < 6
    ensures IsHexDigit(s[3 * k]) && IsHexDigit(s[3 * k + 1])
  {
    ValidMacMeans(s);
    assert !IsColonPos(3 * k) && !IsColonPos(3 * k + 1);
  }

  /** Dropping twice is dropping the sum. */
  lemma DropDrop(s: string, a: nat, b: nat)
    ensures Drop(Drop(s, a), b) == Drop(s, a + b)
  {
    if a + b <= |s| {
      assert s[a..][b..] == s[a + b..];
    }
  }

  /** A text that starts with two hex digits stores the byte they denote and goes on
      after the third character. */
  lemma BytesOfPair(t: string)
    requires |t| >= 2 && IsHexDigit(t[0]) && IsHexDigit(t[1])
    ensures BytesOf(t) == [PairByte(t[0], t[1])] + BytesOf(Drop(t, 3))
  {
    assert t[0] != ':';
    PairValue(t);
  }

  /** One group: the pair at 3k is stored and the loop goes on at 3k + 3. */
  lemma GroupStep(s: string, k: nat)
    requires IsValidMac(s) && k < 6
    ensures BytesOf(Drop(s, 3 * k)) == [GroupValues(s)[k]] + BytesOf(Drop(s, 3 * k + 3))
  {
    GroupDigits(s, k);
    var t := Drop(s, 3 * k);
    assert t[0] == s[3 * k] && t[1] == s[3 * k + 1];
    BytesOfPair(t);
    DropDrop(s, 3 * k, 3);
  }

  /** Prepending one group to the groups after it. */
  lemma ConsGroup(here: seq<int>, next: seq<int>, g: seq<int>, k: nat, rest: seq<int>)
    requires k < |g| && here == [g[k]] + next && next == g[k + 1..] + rest
    ensures here == g[k..] + rest
  {
    assert g[k..] == [g[k]] + g[k + 1..];
  }

  /** From group k on, the loop reads the remaining groups, then goes on at 18. */
  lemma {:induction false} GroupsFrom(s: string, k: nat)
    requires IsValidMac(s) && k <= 6
    ensures BytesOf(Drop(s, 3 * k)) == GroupValues(s)[k..] + BytesOf(Drop(s, 18))
    decreases 6 - k
  {
    if k < 6 {
      GroupsFrom(s, k + 1);
      GroupsStep(s, k);
    } else {
      assert GroupValues(s)[k..] == [];
    }
  }

  /** The groups from k on, given the groups from k + 1 on. */
  lemma GroupsStep(s: string, k: nat)
    requires IsValidMac(s) && k < 6
    requires BytesOf(Drop(s, 3 * (k + 1))) == GroupValues(s)[k + 1..] + BytesOf(Drop(s, 18))
    ensures BytesOf(Drop(s, 3 * k)) == GroupValues(s)[k..] + BytesOf(Drop(s, 18))
  {
    GroupStep(s, k);
    assert 3 * (k + 1) == 3 * k + 3;
    ConsGroup(BytesOf(Drop(s, 3 * k)), BytesOf(Drop(s, 3 * k + 3)), GroupValues(s), k,
              BytesOf(Drop(s, 18)));
  }

  /** The loop reads the six groups of the first 17 characters, then goes on at 18. */
  lemma GroupBytes(s: string)
    requires IsValidMac(s)
    ensures BytesOf(s) == GroupValues(s) + BytesOf(Drop(s, 18))
  {
    GroupsFrom(s, 0);
    assert Drop(s, 0) == s;
    assert GroupValues(s)[0..] == GroupValues(s);
  }

  // ---------------------------------------------------------------------------
  // qsap_mac_to_macstr

  predicate IsBytes(b: seq<int>) { forall k :: 0 <= k < |b| ==> 0 <= b[k] < 256 }

  /** An upper-case hexadecimal digit, as %X prints it. */
  function HexDigitUpper(d: nat): (c: char)
    requires d < 16
    ensures IsHexDigit(c) && HexValue(c) == d && c != ':'
  {
    if d < 10 then ('0' as int + d) as char else ('A' as int + d - 10) as char
  }

  /** %.2X of a byte: two upper-case hex digits. */
  function HexByte(b: int): (r: string)
    requires 0 <= b < 256
    ensures |r| == 2 && IsHexDigit(r[0]) && IsHexDigit(r[1])
    ensures PairByte(r[0], r[1]) == b
  {
    [HexDigitUpper(b / 16), HexDigitUpper(b % 16)]
  }

  /** The text of one MAC address, `%.2X:%.2X:%.2X:%.2X:%.2X:%.2X`: every third
      character a colon, the others the two digits of each byte. */
  function MacGroup(g: seq<int>): (r: string)
    requires |g| == 6 && IsBytes(g)
    ensures |r| == MacAddrLen
  {
    seq(MacAddrLen, j requires 0 <= j < MacAddrLen => MacChar(g, j))
  }

  /** Character `j` of the text of the address `g`. */
  function MacChar(g: seq<int>, j: nat): char
    requires |g| == 6 && IsBytes(g) && j < MacAddrLen
  {
    if j % 3 == 2 then ':' else HexByte(g[j / 3])[j % 3]
  }

  /** What the loop of qsap_mac_to_macstr prints: every six bytes, a MAC address and a
      blank. */
  function MacListText(bytes: seq<int>): (r: string)
    requires |bytes| % 6 == 0 && IsBytes(bytes)
    ensures |r| == 3 * |bytes|
    decreases |bytes|
  {
    if bytes == [] then [] else MacGroup(bytes[..6]) + " " + MacListText(bytes[6..])
  }

  /** qsap_mac_to_macstr: the addresses separated by single blanks, the last blank
      removed. */
  function MacToMacStr(bytes: seq<int>): string
    requires |bytes| % 6 == 0 && IsBytes(bytes)
  {
    var t := MacListText(bytes);
    if t == [] then [] else t[..|t| - 1]
  }

  /** qsap_mac_to_macstr as its loop, moving on six bytes at a time. */
  method MacToMacStrLoop(bytes: seq<int>) returns (text: string)
    requires |bytes| % 6 == 0 && IsBytes(bytes)
    ensures text == MacToMacStr(bytes)
  {
    var out := [];
    var rest := bytes;
    while rest != []
      invariant |rest| % 6 == 0 && IsBytes(rest)
      invariant out + MacListText(rest) == MacListText(bytes)
      decreases |rest|
    {
      var line := MacGroup(rest[..6]) + " ";
      assert MacListText(rest) == line + MacListText(rest[6..]);
      assert (out + line) + MacListText(rest[6..]) == out + MacListText(rest);
      out := out + line;
      rest := rest[6..];
    }
    if |out| > 0 {
      out := out[..|out| - 1];
    }
    text := out;
  }

  /** The text of an address is a valid MAC address whose groups denote its bytes. */
  lemma MacGroupValues(g: seq<int>)
    requires |g| == 6 && IsBytes(g)
    ensures IsValidMac(MacGroup(g)) && GroupValues(MacGroup(g)) == g
  {
    var r := MacGroup(g);
    forall j | 0 <= j < MacAddrLen
      ensures MacCharOk(r, j)
    {
    }
    MacScanMeans(r, 0);
    forall k | 0 <= k < 6
      ensures GroupValues(r)[k] == g[k]
    {
      assert (3 * k) / 3 == k && (3 * k) % 3 == 0;
      assert (3 * k + 1) / 3 == k && (3 * k + 1) % 3 == 1;
    }
  }

  /** Only the first 17 characters decide the groups. */
  lemma GroupValuesPrefix(s: string, t: string)
    requires IsValidMac(s) && IsValidMac(t) && s[..MacAddrLen] == t[..MacAddrLen]
    ensures GroupValues(s) == GroupValues(t)
  {
    forall k | 0 <= k < 6
      ensures s[3 * k] == t[3 * k] && s[3 * k + 1] == t[3 * k + 1]
    {
      assert s[3 * k] == s[..MacAddrLen][3 * k] && s[3 * k + 1] == s[..MacAddrLen][3 * k + 1];
      assert t[3 * k] == t[..MacAddrLen][3 * k] && t[3 * k + 1] == t[..MacAddrLen][3 * k + 1];
    }
  }

  /** The text qsap_mac_to_macstr prints, one address after another. */
  lemma MacToMacStrCons(bytes: seq<int>)
    requires |bytes| % 6 == 0 && IsBytes(bytes) && |bytes| > 6
    ensures MacToMacStr(bytes) == MacGroup(bytes[..6]) + " " + MacToMacStr(bytes[6..])
  {
    var t := MacListText(bytes[6..]);
    assert MacListText(bytes) == MacGroup(bytes[..6]) + " " + t;
    assert (MacGroup(bytes[..6]) + " " + t)[..|MacListText(bytes)| - 1]
           == MacGroup(bytes[..6]) + " " + t[..|t| - 1];
  }

  /** The text of one address converts back to its six bytes. */
  lemma MacGroupRoundTrip(g: seq<int>)
    requires |g| == 6 && IsBytes(g)
    ensures IsValidMac(MacGroup(g)) && MacInBytes(MacGroup(g)) == Some(g)
  {
    var head := MacGroup(g);
    MacGroupValues(g);
    GroupBytes(head);
    assert Drop(head, 18) == [];
    assert GroupValues(head) + [] == g;
  }

  /** The bytes of an address followed by a blank and more text are those of its six
      groups followed by those of the text after the blank. */
  lemma ValidThenRest(head: string, tail: string)
    requires IsValidMac(head) && |head| == MacAddrLen
    ensures IsValidMac(head + " " + tail)
    ensures BytesOf(head + " " + tail) == GroupValues(head) + BytesOf(tail)
  {
    var text := head + " " + tail;
    ValidMacPrefix(head, " " + tail);
    assert text == head + (" " + tail);
    assert text[..MacAddrLen] == head[..MacAddrLen];
    GroupValuesPrefix(text, head);
    GroupBytes(text);
    assert Drop(text, 18) == tail;
  }

  lemma GroupThenRest(g: seq<int>, tail: string)
    requires |g| == 6 && IsBytes(g)
    ensures IsValidMac(MacGroup(g) + " " + tail)
    ensures BytesOf(MacGroup(g) + " " + tail) == g + BytesOf(tail)
  {
    MacGroupValues(g);
    ValidThenRest(MacGroup(g), tail);
  }

  /** The text of a single address is its group, without the trailing blank. */
  lemma MacStrSingle(g: seq<int>)
    requires |g| == 6 && IsBytes(g)
    ensures MacToMacStr(g) == MacGroup(g)
  {
    assert g[..6] == g && g[6..] == [];
    assert MacListText(g) == MacGroup(g) + " ";
  }

  /** An address in front of a text that converts back to `rest` converts back to its
      bytes followed by `rest`. */
  lemma RoundTripStep(g: seq<int>, rest: seq<int>, text: string)
    requires |g| == 6 && IsBytes(g) && MacInBytes(text) == Some(rest)
    ensures IsValidMac(MacGroup(g) + " " + text)
    ensures MacInBytes(MacGroup(g) + " " + text) == Some(g + rest)
  {
    GroupThenRest(g, text);
  }

  /** The list of several addresses converts back when the list after the first does. */
  lemma MacStrCons(bytes: seq<int>)
    requires |bytes| % 6 == 0 && IsBytes(bytes) && |bytes| > 6
    requires MacInBytes(MacToMacStr(bytes[6..])) == Some(bytes[6..])
    ensures MacInBytes(MacToMacStr(bytes)) == Some(bytes)
  {
    var g, rest := bytes[..6], bytes[6..];
    MacToMacStrCons(bytes);
    RoundTripStep(g, rest, MacToMacStr(rest));
    assert bytes == g + rest;
  }

  /** Round trip: qsap_get_mac_in_bytes of the text qsap_mac_to_macstr prints gives back
      the bytes, for any non-empty list of whole addresses. */
  lemma {:induction false} MacStrRoundTrip(bytes: seq<int>)
    requires |bytes| % 6 == 0 && IsBytes(bytes) && bytes != []
    ensures MacInBytes(MacToMacStr(bytes)) == Some(bytes)
    decreases |bytes|
  {
    if |bytes| == 6 {
      MacStrSingle(bytes);
      MacGroupRoundTrip(bytes);
    } else {
      MacStrRoundTrip(bytes[6..]);
      MacStrCons(bytes);
    }
  }
}
