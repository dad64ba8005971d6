# Soft AP configuration engine (qsap_api.c) in Dafny

This project models the command engine of the Qualcomm soft access point SDK
(`softap/sdk/qsap_api.c`). The engine takes one line of text at a time:
`get <name>` or `set <name>=<value>`. It answers with a single line:
`success`, `success <name>=<value>` or `failure <reason>`.

Its state is two text files:

- the hostapd configuration file, made of `key=value` lines, some of them
  commented out with `#`;
- the WLAN driver's ini file, in which only the lines before `END` are entries.

The model represents those files as a map from path to a sequence of lines
(`Store.Fs`). A path missing from the map is a file that cannot be opened. Each
reader and writer of the engine is a function over those files. The loops the
source runs over lines, buffers and tables are methods proved against those
functions. `Store.ConfigFiles` is the mutable view of the files that the
state-changing operations update in place.

Modules, in dependency order:

- `Text`: atoi, `%ld` printing and the blank-skipping helpers.
- `Protocol`: the answers and failure reasons.
- `LineStore`: reading a key, rewriting a key, and commenting or uncommenting a key,
  on the lines of one file.
- `Store`: the same operations on the file map, and the `ConfigFiles` class.
- `Tables`: `cmd_list`, `qsap_str` and the `hw_mode` names.
- `Mac`: MAC validation, `atoh`, text to bytes and bytes to text.
- `MacList`: the allow and deny list files.
- `Wep`: WEP key validation and the quote-stripping read.
- `Security`: reading and setting the security mode.
- `Radio`: the MAC address read, the channel read, the auto shut-off read and
  `qsap_get_config_value`.
- `Modes`: setting the channel, the operating mode and the data rate.
- `Wps`: the WPS state and the WPS configuration method.
- `Commands`: command lookup, the get and set dispatchers, and `qsap_hostd_exec_cmd`.

Most values the engine takes from `qsap_api.h`, which is not part of this model, are
fields of `Tables.Header`. Examples are the `IS_VALID_*` checks, the length limits,
the WPS and ACL constants and the file paths. A few are fixed constants of `Tables`
instead, with assumed values that "## Left out" lists. The outcomes of calls outside the
configuration files are fields of `Commands.Externals`: the driver, the ioctls and
the hostapd control socket.

## Model

| member | source | states |
|---|---|---|
| Text.AtoiOfIntToString | softap/sdk/qsap_api.c:2613-2620 | atoi of a number written back with `%ld` is that number |
| LineStore.FindEntryMeans | softap/sdk/qsap_api.c:191-264 | a read takes the first line that is an entry of the key, skipping commented lines unless asked for them; no line is taken when none is an entry |
| LineStore.ReadScan | softap/sdk/qsap_api.c:191-264 | the read loop finds the line the read specification selects |
| LineStore.WritePlain | softap/sdk/qsap_api.c:278-365 | a write replaces the first entry of the key, commented or not, with `key=value`, or appends it when there is none |
| LineStore.WriteIniForm | softap/sdk/qsap_api.c:278-365 | in the ini file, a write is a plain write to the lines before `END`, then `END`, then the lines after it unchanged |
| LineStore.WriteRewrite | softap/sdk/qsap_api.c:278-365 | the copy loop of qsap_write_cfg produces exactly the written lines |
| LineStore.ReadAfterWrite | softap/sdk/qsap_api.c:191-365 | after a write of a one-line value (no line feed in it, no carriage return at its end), a read of the key answers `name=value`, with or without commented lines |
| LineStore.WriteFrame | softap/sdk/qsap_api.c:278-365 | a write of one key, with a value that has no line feed, leaves the read of every other key unchanged |
| LineStore.WriteTwice | softap/sdk/qsap_api.c:278-365 | two writes of a key, the first with a value that has no line feed, equal the last one alone |
| LineStore.ToggleRewrite | softap/sdk/qsap_api.c:438-504 | the copy loop of qsap_change_cfg produces exactly the toggled lines |
| LineStore.ToggleTwice | softap/sdk/qsap_api.c:438-504 | of two changes of one key, the last one decides |
| LineStore.DisableEnableRestores | softap/sdk/qsap_api.c:438-504 | commenting out then uncommenting a key whose entries were all live restores the file |
| LineStore.ReadAfterEnable | softap/sdk/qsap_api.c:438-504 | after enabling, a read that skips comments sees what a read of commented lines saw before |
| LineStore.ReadAfterDisable | softap/sdk/qsap_api.c:438-504 | after disabling, a read that skips comments answers the default, or feature-not-enabled when there is none |
| LineStore.ToggleFrame | softap/sdk/qsap_api.c:438-504 | changing one key leaves the read of every other key unchanged |
| LineStore.ToggleKeepsValue | softap/sdk/qsap_api.c:438-504 | changing a key never changes its value as seen with commented lines |
| LineStore.ToggleAllKeepsValue | softap/sdk/qsap_api.c:527-637 | a sequence of changes keeps every value as seen with commented lines |
| LineStore.CopyLines | softap/sdk/qsap_api.c:1667-1709 | the copy loop of the reset copies every line |
| Store.ReadCfg | softap/sdk/qsap_api.c:191-264 | a file that does not open is ERR_RES_UNAVAILABLE; otherwise the answer of the line read |
| Store.WriteCfg | softap/sdk/qsap_api.c:278-365 | a file that does not open is ERR_RES_UNAVAILABLE with nothing changed; otherwise success, and no file appears or vanishes |
| Store.ChangeCfg | softap/sdk/qsap_api.c:438-504 | fails exactly when the file does not open; no file appears or vanishes |
| Store.ResetToDefault | softap/sdk/qsap_api.c:1667-1709 | fails exactly when the default file does not open; the file then holds the default's lines and every other file is unchanged |
| Store.ConfigFiles.Read | softap/sdk/qsap_api.c:191-264 | answers the read of the current files |
| Store.ConfigFiles.Write | softap/sdk/qsap_api.c:278-365 | updates the files and the answer as the write does |
| Store.ConfigFiles.Change | softap/sdk/qsap_api.c:438-504 | updates the files as the change does, or leaves them when it fails |
| Store.ConfigFiles.ChangeAll | softap/sdk/qsap_api.c:527-637 | applies a sequence of changes, or leaves the files when it fails |
| Store.ConfigFiles.Reset | softap/sdk/qsap_api.c:1667-1709 | replaces the file with its default, or leaves the files when it fails |
| Tables.NamesAreKeys | softap/sdk/qsap_api.c:78-145 | every command name is non-empty, has no `=`, does not start with `#` and cannot be read as `END` |
| Tables.IniNamesAreKeys | softap/sdk/qsap_api.c:146-166 | the same for every ini entry name |
| Mac.ValidMacMeans | softap/sdk/qsap_api.c:663-685 | a MAC is valid iff it has 17 characters or more, colons at every third position and hex digits elsewhere |
| Mac.ValidMacPrefix | softap/sdk/qsap_api.c:663-685 | only the first 17 characters decide validity |
| Mac.AtohIsHexNumber | softap/sdk/qsap_api.c:1972-1998 | for up to 8 hex digits, the sum fits in 32 bits and atoh is the number they denote, read as a signed 32-bit value |
| Mac.GetMacInBytes | softap/sdk/qsap_api.c:2000-2026 | succeeds iff the text is a valid MAC and then yields the bytes of its specification |
| Mac.MacInBytesSix | softap/sdk/qsap_api.c:2000-2026 | a 17-character MAC gives the six bytes of its six digit pairs |
| Mac.MacToMacStrLoop | softap/sdk/qsap_api.c:1184-1207 | the formatting loop produces the blank-separated `XX:XX:XX:XX:XX:XX` groups |
| Mac.MacGroupRoundTrip | softap/sdk/qsap_api.c:1184-1207 | six bytes formatted as text parse back to the same six bytes |
| Mac.MacStrRoundTrip | softap/sdk/qsap_api.c:1184-1207 | a formatted list of MACs parses back to the same bytes |
| MacList.ListFilePathAfterWrite | softap/sdk/qsap_api.c:652-660 | a one-line list file path written to the configuration is the path found |
| MacList.AddLenTracks | softap/sdk/qsap_api.c:740-769 | as written, `len` tracks the text left, except when the skipped separator is the last character |
| MacList.AddOverrunExample | softap/sdk/qsap_api.c:740-769 | `"11:22:33:44:55:66 "` leaves `len == 1` with no text left |
| MacList.MacTokensOfJoin | softap/sdk/qsap_api.c:740-769 | splitting a blank-joined list of full MACs gives back the list |
| MacList.AddedMacsMeans | softap/sdk/qsap_api.c:740-769 | the addresses added are the valid tokens in order, cut at the room left |
| MacList.AddToFullFile | softap/sdk/qsap_api.c:731-736 | a file with MAX_ALLOWED_MAC lines is not changed, and the add fails |
| MacList.AddAppends | softap/sdk/qsap_api.c:705-780 | otherwise the valid addresses are appended up to the limit, and no other file changes |
| MacList.AppendMacs | softap/sdk/qsap_api.c:740-769 | the append loop appends exactly those addresses |
| MacList.AddMacToFile | softap/sdk/qsap_api.c:705-780 | the files and the answer are those of the add |
| MacList.RemoveFromFile | softap/sdk/qsap_api.c:793-873 | a file that does not open is ERR_RES_UNAVAILABLE; otherwise success, and only the list file changes |
| MacList.RemoveMeans | softap/sdk/qsap_api.c:793-873 | a line survives iff it was there and does not match a MAC of the request |
| MacList.RemoveIdempotent | softap/sdk/qsap_api.c:793-873 | removing twice is removing once |
| MacList.RemoveAfterAdd | softap/sdk/qsap_api.c:793-873 | removing a MAC just added leaves the file as removing it from the original |
| MacList.ListedLoop | softap/sdk/qsap_api.c:793-873 | the compare loop says whether the line matches one of the request's MACs |
| MacList.RemoveLoop | softap/sdk/qsap_api.c:793-873 | the copy loop keeps exactly the lines that do not match |
| MacList.RemoveMacFromFile | softap/sdk/qsap_api.c:793-873 | the files and the answer are those of the remove |
| MacList.ListedAreListable | softap/sdk/qsap_api.c:932-1012 | every address listed is an uncommented valid line of the file |
| MacList.ListAfterAdd | softap/sdk/qsap_api.c:932-1012 | after an add to a file of full MACs, the list shows the whole file, the old lines first |
| MacList.ListLoop | softap/sdk/qsap_api.c:932-1012 | the listing loop joins the listed addresses with blanks |
| Wep.WepKeyMeans | softap/sdk/qsap_api.c:1618-1665 | a key is valid iff, unquoted, it has an ASCII length and is all ASCII or has a hex length and is all hex; an ASCII key is stored quoted |
| Wep.AsWrittenAcceptsMore | softap/sdk/qsap_api.c:1636-1644 | the check as written accepts every key the corrected check accepts, with the same stored form |
| Wep.AsWrittenLastCharExample | softap/sdk/qsap_api.c:1636-1644 | as written, `abcd` followed by a non-ASCII character is accepted; corrected, it is refused |
| Wep.IsValidWepKey | softap/sdk/qsap_api.c:1618-1665 | the validation loop gives the corrected check's result |
| Wep.StripStored | softap/sdk/qsap_api.c:1279-1307 | stripping undoes the quotes of an ASCII key and leaves a hex key as it is |
| Wep.ReadWepAfterWrite | softap/sdk/qsap_api.c:1279-1307 | an accepted key without a line feed that was written is read back unquoted |
| Wep.ReadWepAfterDisable | softap/sdk/qsap_api.c:1279-1307 | a key without a line feed still reads back once its entry is commented out |
| Wep.StripWepInPlace | softap/sdk/qsap_api.c:1279-1307 | the in-place shift over the answer buffer leaves the stripped text |
| Security.SecurityDerivation | softap/sdk/qsap_api.c:376-427 | the mode is WEP, none, or the `wpa` mode, as the two entries are on; both on is ERR_UNKNOWN; the answer succeeds iff the mode is valid |
| Security.SecurityReadMissing | softap/sdk/qsap_api.c:376-427 | a file that does not open reads as both kinds being on |
| Security.ReadSecurityMode | softap/sdk/qsap_api.c:376-427 | the method gives the derivation's mode and answer |
| Security.SetSecurityMode | softap/sdk/qsap_api.c:527-637 | the files and the answer are those of the set |
| Security.DefaultKeyAfterToggles | softap/sdk/qsap_api.c:527-637 | after a set, `wep_default_key` is live only for WEP, with its old value |
| Security.WpaAfterToggles | softap/sdk/qsap_api.c:527-637 | after a set, `wpa` is live only for the WPA modes |
| Security.SecurityRoundTrip | softap/sdk/qsap_api.c:527-637 | a valid mode that is set is the mode read back; WEP needs a default key line |
| Security.WepNeedsDefaultKey | softap/sdk/qsap_api.c:527-637 | with no `wep_default_key` line, WEP that is set reads back as no security |
| Security.SecuritySetFrame | softap/sdk/qsap_api.c:527-637 | a set leaves every entry it does not toggle unchanged |
| Radio.GetConfigValue | softap/sdk/qsap_api.c:1063-1078 | the method answers the text after `=` of the entry read |
| Radio.ConfigValueAfterWrite | softap/sdk/qsap_api.c:1063-1078 | a one-line value written is the value read |
| Radio.RegroupLoop | softap/sdk/qsap_api.c:1040-1052 | the loop puts a colon after every two of the first twelve characters |
| Radio.RegroupedValid | softap/sdk/qsap_api.c:1014-1061 | the regrouped text is a valid MAC iff the first twelve characters are hex digits |
| Radio.RegroupedBytes | softap/sdk/qsap_api.c:1014-1061 | the regrouped MAC's bytes are the twelve digits read in pairs |
| Radio.ReadMacAfterWrite | softap/sdk/qsap_api.c:1014-1061 | a one-line value starting with twelve hex digits, written to the ini file, reads back as a colon-separated MAC |
| Radio.ReadChannelAfterWrite | softap/sdk/qsap_api.c:1155-1182 | a channel is answered as stored; the automatic one is answered as `0,` and the channel in use, or ERR_UNKNOWN when that is not known |
| Radio.AutoShutoffRoundTrip | softap/sdk/qsap_api.c:1373-1392 | a time set in minutes is read back in minutes while the seconds fit in 32 bits |
| Modes.ChannelModeWritesMeans | softap/sdk/qsap_api.c:2077-2125 | the mode writes of a channel set leave the mode chosen for the band of the channel |
| Modes.ChannelSetMeans | softap/sdk/qsap_api.c:2077-2125 | an unreadable mode is ERR_UNKNOWN with nothing changed; otherwise the mode for the band and the channel are both read back |
| Modes.ChannelSetFrame | softap/sdk/qsap_api.c:2077-2125 | a channel set touches no entry but hw_mode and channel |
| Modes.SetChannel | softap/sdk/qsap_api.c:2077-2125 | the files and the answer are those of the set |
| Modes.FlagLinesMeans | softap/sdk/qsap_api.c:2127-2166 | ieee80211n is 1 exactly for the HT modes; basic_rates is live only for g-only; require_ht is live only for n-only |
| Modes.ModeFlagsHold | softap/sdk/qsap_api.c:2127-2166 | the flags hold on the file after the flag updates |
| Modes.OperatingModeMeans | softap/sdk/qsap_api.c:2127-2166 | after a mode set, hw_mode reads back the mode as stored (the mode's name, but `g` for n, g-only and n-only) and the flags hold |
| Modes.SetOperatingMode | softap/sdk/qsap_api.c:2127-2166 | the files and the answer are those of the set |
| Modes.DataRateSetMeans | softap/sdk/qsap_api.c:2168-2204 | a rate is stored iff the index is valid, the mode is readable and the mode has that rate, and it reads back as gFixedRate; otherwise nothing changes |
| Modes.SetDataRate | softap/sdk/qsap_api.c:2168-2204 | the files and the answer are those of the set |
| Wps.WpsUpdateMeans | softap/sdk/qsap_api.c:1875-1915 | after an update, wps_state reads back as enabled or disabled as the value asks, and eap_server is 1 |
| Wps.WpsUpdateValues | softap/sdk/qsap_api.c:1875-1915 | the stored wps_state is the header's enable value, or 0 for disable |
| Wps.WpsUpdateFields | softap/sdk/qsap_api.c:1875-1915 | every WPS field is live after an enable, with its old value, and commented out after a disable |
| Wps.WpsUpdateFrame | softap/sdk/qsap_api.c:1875-1915 | an update touches no entry outside the WPS fields, wps_state and eap_server |
| Wps.UpdateWpsConfig | softap/sdk/qsap_api.c:1875-1915 | the files and the answer are those of the update |
| Wps.WpsMethod | softap/sdk/qsap_api.c:1917-1969 | ERR_INVALID_PARAM iff the request is refused; success iff a directive is sent and hostapd takes it |
| Wps.ConfigWpsMethod | softap/sdk/qsap_api.c:1917-1969 | the scanning method sends the directive of the specification, cut to the 63 characters of `buf`, and answers as it does |
| Wps.WpsPbcRequest | softap/sdk/qsap_api.c:1917-1969 | a push-button request sends `WPS_PBC` |
| Wps.FitBuf | softap/sdk/qsap_api.c:1961 | `snprintf(buf, 64, ...)` keeps a prefix of at most 63 characters: all of the text when it fits, exactly 63 characters otherwise |
| Wps.WpsPinRequest | softap/sdk/qsap_api.c:1917-1969 | a PIN request sends a directive iff the PIN is long enough; it is `WPS_PIN any <pin>` when that fits in 63 characters, and otherwise the PIN is cut to fit |
| Wps.WpsPinMissing | softap/sdk/qsap_api.c:1917-1969 | a PIN request without a PIN is refused |
| Commands.FirstNamed | softap/sdk/qsap_api.c:1564-1576 | the first table name that the request starts with and that is followed by `=` or the end; none iff no name is |
| Commands.CmdNum | softap/sdk/qsap_api.c:1564-1576 | the command number found names the request, and no command names a request that has no number |
| Commands.GetCmdNum | softap/sdk/qsap_api.c:1564-1576 | the lookup loop finds that number |
| Commands.CmdNumByKey | softap/sdk/qsap_api.c:1564-1576 | the number of `name=value` is the number of `name` |
| Commands.CmdNumNamesKey | softap/sdk/qsap_api.c:1564-1576 | a request without `=` finds the command of exactly that name |
| Commands.TrimLoop | softap/sdk/qsap_api.c:1539-1549 | the trimming loop cuts exactly the trailing blanks of the answer |
| Commands.ModeIndexFrom | softap/sdk/qsap_api.c:2401-2416 | the hw_mode index found names the value; no index is found iff no mode has that name |
| Commands.StoredSet | softap/sdk/qsap_api.c:2726-2742 | a value that fails its check is ERR_INVALID_PARAM with the files unchanged; a configuration write keeps the set of files |
| Commands.SetCommand | softap/sdk/qsap_api.c:2263-2742 | every checked command refuses a value that fails its check with ERR_INVALID_PARAM and leaves the files unchanged: the length and number checks, an hw_mode value that names no mode, and a WEP key the check refuses |
| Commands.ExecCmd | softap/sdk/qsap_api.c:2757-2780 | only a set changes the files; a line with neither verb is ERR_INVALIDREQ |
| Commands.ConfRoundTrip | softap/sdk/qsap_api.c:2726-2742 | a value accepted for a configuration-file command reads back, in its written form, under the command's name; a raw value must be one line and not end in a blank |
| Commands.IniRulesAgree | softap/sdk/qsap_api.c:1410-1552 | every command set through an ini entry, except auto_shut_off_time (whose read of the same entry in minutes Commands.AutoShutoffSteps gives), is read from that same entry |
| Commands.IniRoundTrip | softap/sdk/qsap_api.c:2726-2742 | a value accepted for an ini command reads back, in its written form, under the command's name |
| Commands.StoredFrame | softap/sdk/qsap_api.c:2726-2742 | a configuration-file set leaves every other key's read unchanged, when a raw value has no line feed |
| Commands.AutoShutoffSetGet | softap/sdk/qsap_api.c:2705-2713 | auto_shut_off_time reads back in minutes after it is stored in seconds |
| Commands.WpsStateSetGet | softap/sdk/qsap_api.c:2613-2622 | wps_state reads back enabled or disabled as set, and eap_server is on |
| Commands.IntraBssSetGet | softap/sdk/qsap_api.c:2682-2697 | ap_isolate is uncommented for any value but disable, and commented out for disable |
| Commands.SetOfNumberCanonical | softap/sdk/qsap_api.c:2603-2611 | for a command stored as a number, a set of a value does exactly what a set of its number's `%ld` text does: `01` and `1` leave the same files and answer |
| Commands.AclSteps | softap/sdk/qsap_api.c:2290-2321 | a set of macaddr_acl with an accepted number is the ACL update, with the allow policy exactly when the number is ACL_ALLOW_LIST |
| Commands.AclSetMeans | softap/sdk/qsap_api.c:2300-2321 | for the allow policy accept_mac_file is put in force with its old value and deny_mac_file is commented out, the other way round otherwise; macaddr_acl then reads its number in at most three characters |
| Commands.PairwiseSteps | softap/sdk/qsap_api.c:2450-2466 | a pairwise set is refused with ERR_INVALID_PARAM and no change unless the cipher is valid, and is the pairwise update otherwise |
| Commands.PairwiseSetMeans | softap/sdk/qsap_api.c:2450-2466 | ieee80211n is commented out for TKIP alone and in force with its old value otherwise; the pairwise key reads back the one-line value |
| Commands.WepUnlessWepMeans | softap/sdk/qsap_api.c:2439-2446 | after a WEP entry is written, it stays in force when the security mode read back is WEP and is commented out otherwise, keeping its value for a read through comments |
| Commands.WepKeyWriteKeepsMode | softap/sdk/qsap_api.c:2474-2478 | writing a WEP key leaves the security mode that is read back next unchanged |
| Commands.WepKeySteps | softap/sdk/qsap_api.c:2468-2488 | a set of wep_key0..3 is the WEP key update |
| Commands.WepKeySetMeans | softap/sdk/qsap_api.c:2468-2488 | a valid key without a line feed is written and reads back unquoted through comments; it is in force as stored when the mode was WEP, and commented out otherwise |
| Commands.WepIndexSetMeans | softap/sdk/qsap_api.c:2429-2448 | wep_default_key is written as its number's text; it is in force when the mode read back after the write is WEP, and commented out otherwise |
| Commands.HandleSetByKey | softap/sdk/qsap_api.c:2226-2260 | `name=value` goes to the command of that name; an empty value is ERR_INVALID_ARG for all but commit and reset_to_default |
| Commands.HandleSetBare | softap/sdk/qsap_api.c:2226-2260 | a bare name is ERR_INVALID_ARG unless it is commit or reset_to_default |
| Commands.HandleGetByKey | softap/sdk/qsap_api.c:1598-1616 | a get ignores anything after `=` |
| Commands.ExecGet | softap/sdk/qsap_api.c:2757-2780 | `get ` goes to the get handler and changes nothing |
| Commands.ExecSet | softap/sdk/qsap_api.c:2757-2780 | `set ` goes to the set handler |
| Commands.SetRequest | softap/sdk/qsap_api.c:2757-2780 | `set name=value` runs the set of that command with that value |
| Commands.GetRequest | softap/sdk/qsap_api.c:2757-2780 | `get name` answers what that command's reader answers |
| Commands.SetThenGet | softap/sdk/qsap_api.c:2226-2742 | for a configuration-file command, `set name=value` succeeds and a following `get name` answers `name=` and the written value; a raw value must be one line and not end in a blank |

## Left out

- Writes and file operations:
  - LineStore.WritePlain: the model writes `key=value` as one line, whatever the value holds. The source writes `"%s=%s\n"`, so each line feed inside the value starts another line of the file. A value with a line feed is therefore one line here and several lines in the source.
  - LineStore.ReadAfterWrite: requires a value without a line feed. After a value with one, the source reads back only its first line, and the model claims nothing.
  - LineStore.WriteFrame: requires a value without a line feed. The extra lines such a value adds in the source can be entries of other keys, and the model does not have them.
  - LineStore.WriteTwice: requires a first value without a line feed. The extra lines that value leaves in the source are not removed by the second write, and the model does not have them.
  - Wep.ReadWepAfterWrite: requires a key without a line feed. An ASCII key may hold one, and the source then stores two lines. Wep.ReadWepAfterDisable has the same restriction.
  - Radio.ConfigValueAfterWrite: requires a value without a line feed and without a trailing carriage return. Radio.ValueAfterWrite, Radio.ReadMacAfterWrite and MacList.ListFilePathAfterWrite have the same restriction.
  - Commands.ConfRoundTrip: requires a raw value without a line feed, without a trailing carriage return and without a trailing blank. Number forms need nothing.
  - Commands.StoredFrame: requires a raw value without a line feed.
  - Commands.SetThenGet: requires a raw value without a line feed, without a trailing carriage return and without a trailing blank.
  - Commands.PairwiseSetMeans and Commands.WepKeySetMeans: require a value without a line feed, for the same reason.
  - `fgets` into fixed buffers and long lines are not modelled. A line is read whole, without its `\n`, and every file is taken to end with a newline.
  - `*plen` response capacities are not modelled. Every answer is complete.
  - A failure of `fopen`, `rename` or `unlink` on the temporary files is not modelled. Only the opening of the source file can fail, which is a path missing from the map.
  - check_for_configuration_files is not modelled. The files are taken to exist or not, as the map says.
  - `qsap_set_ini_filename` (qsap_api.c:2938-2946), called on a tx_power set (qsap_api.c:2676), is not modelled. It may point the global `fIni` at the file named by the `wlan.driver.config` property for every later ini read and write; the model always uses `Tables.Header.iniFile`, since a system property is outside this model.
- Foreign calls and concurrency:
  - Driver loading, the ioctls, the hostapd socket, `is_softap_enabled`, station lists, AP statistics, disassociation and softap reload are outcomes in `Commands.Externals`, not computations.
  - Logging is not modelled.
  - `qsapsetSoftap` (the argv entry point) and `qsap_del_ctrl_iface` are not modelled. Neither is the body of `qsap_send_cmd_to_hostapd`, beyond its outcome.
- Integer widths:
  - Text.Atoi: does not model overflow of `atoi`. It returns the mathematical value.
  - Mac.GetMacInBytes: bytes are stored as values 0 to 255, not as signed `s8`.
  - Mac.MacToMacStrLoop: requires a whole number of 6-byte groups, because `slen -= 6` on a `u32` would wrap.
  - Mac.MacToMacStrLoop: prints `%02X` of values 0 to 255. The source prints `s8` values, which are sign-extended.
  - Commands.SetCommand: a `value * 60` that overflows `s32` is not wrapped. Radio.AutoShutoffRoundTrip therefore requires that the seconds fit.
  - Commands.SetCommand: `snprintf` into MAX_INT_STR is not cut. A tx_power value is cut to three characters (`sizeof(u32)` bytes with the terminator), which is the `Canonical3` form.
- Aliasing:
  - Modes.SetChannel: the mode read is kept as a value of its own. In the source it points into the answer buffer that the mode writes reuse. Their answer overwrites only the first eight characters of that buffer, so the mode's characters stay in place and every test sees the mode as first read.
- Dispatcher:
  - Commands.SetCommand: a wep_key0..3 value goes through the corrected check `Wep.WepKey`, not the `is_valid_wep_key` as written that qsap_api.c:2472 calls. For an ASCII key whose last character is not ASCII, the source writes the key, while the model answers ERR_INVALID_PARAM. This is the first row of "## Findings", and `Wep.WepKeyAsWritten` is the check as written.
  - Wps.WpsDirective: the copy of the method number into `buf[64]` (qsap_api.c:1930-1936) has no bound. A number token of 64 characters or more overruns the buffer in the source, while the model reads the whole token. The 63-character cut of the PIN directive by `snprintf` is modelled.
  - Commands.SetCommand: the number check of the special commands (security mode, ACL, enable_softap, wep_default_key, wps_state, ap_isolate) runs before their case. This gives the same answer as the check at the head of each case in the source.
  - Commands.HandleSet: modelled as a function returning the new files and the answer. `Store.ConfigFiles` and the methods of the other modules carry the in-place updates.
- Assumed constants:
  - Tables: `ENABLE` = 1, `DISABLE` = 0, `AUTO_CHANNEL` = 0, `MAX_ALLOWED_MAC` = 15 and the MAC text length 17 are assumed values. So are the `SEC_MODE_*` values 0 to 5 (none, WEP, WPA-PSK, WPA2-PSK, mixed, invalid) and the `HW_MODE_*` indices 0 to 5 in the order of the hw_mode table at qsap_api.c:170-172. They come from `qsap_api.h`, which is not part of this model, so they are constants rather than `Tables.Header` fields. Answers such as `security_mode=<n>` and the values written to ieee80211n and ap_isolate depend on them.
  - Security.WpaValue: `WPA_IN_CONF_FILE` = "1", `WPA2_IN_CONF_FILE` = "2" and `WPA_WPA2_IN_CONF_FILE` = "3" are assumed values of the `qsap_api.h` macros written to `wpa` (qsap_api.c:559-567). The read side compares with the literals `'1'`, `'2'` and `'3'` (qsap_api.c:400-403), so Security.SecurityRoundTrip holds under this assumption only.
- Weaker requirements:
  - Wps.WpsUpdateMeans: requires the header's WPS_STATE_ENABLE to differ from WPS_STATE_DISABLE and from 0. Those macros are not part of this model.
  - Commands.WpsStateSetGet: requires the same of the header's WPS state values.
- Source behaviour kept as written:
  - A set of `ieee80211d` writes the hostapd key `ieee80211d`, while a get reads the ini entry `g11dSupportEnabled`. This is modelled as written, so no round trip is claimed for that command.
  - A set of `mac_address` falls to the default case and writes the hostapd key `mac_address`, while a get reads the ini entry `gAPMacAddr` (qsap_api.c:1023). This is modelled as written; Radio.ReadMacAfterWrite states the read-back of the ini entry, and no set-then-get round trip is claimed for that command.

## Findings

| source | as written | input that shows it | evidently intended | confidence | as-written member | corrected member |
|---|---|---|---|---|---|---|
| softap/sdk/qsap_api.c:1636-1644 | the ASCII branch decrements `weplen` before `while(weplen--)`, so the last character of a 5, 13 or 16 character key is never checked | `abcd` followed by character 233 is accepted as a WEP key | every character of an ASCII key is checked | not executed | Wep.AsWrittenLastCharExample | Wep.WepKeyMeans |
| softap/sdk/qsap_api.c:740-769 | when the separator skipped by `pVal++` is the last character, `len` stays at 1 while no text is left, so the loop reads past the terminator | `11:22:33:44:55:66 ` (a trailing blank) | the loop stops at the end of the text | not executed | MacList.AddOverrunExample | MacList.AppendMacs |
