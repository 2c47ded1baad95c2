# rof2client-dinput8 — a Dafny model of the client mod framework's logic

The framework is a proxy `dinput8.dll` that hooks the game client. It adds:

- a map overlay with spawn filters, markers and map locations;
- server-driven multiclass stats;
- label and gauge overrides;
- a target-information window;
- slash commands.

This project models the deterministic logic that runs on top of the hooks:

- **Command line and dispatch.** The quote-aware argument splitter (`GetNextArg`, `GetArg`), integer parsing with a default, case-insensitive compare and search, the spawn-search keyword parser and filter, and the slash-command registry and dispatcher (modules `Args`, `Compat`, `SpawnSearch`, `Commands`).
- **Map filters.** The option table, the recursive prerequisite rule, and the `/mapfilter`, colour, layer, click and marker command handlers (`MapFilters`, `MapCommands`).
- **Map bookkeeping.** The intrusive label/line/object lists, the map-location list with dense 1-based indices, the `%` format and click-substitution engines, and the attach/detach splice into the game's lists (`MapLists`, `MapLocs`, `MapFormat`, `MapApi`).
- **Server stat cache.** The length-checked EdgeStat packet decoder and the query API (`StatCache`).
- **Label and stat overrides.** Class titles, the refcounted game-string overwrite, gauge permille, the stat clamp and the class-line rules (`Labels`, `GameString`).
- **Target window.** The rect-string parser, on/off parsing, the placeholder-file line parser and comma split, and the child-rectangle anchor arithmetic (`TargetInfo`, `PhMap`, `TargetRects`).

## Conventions

- **Data.** Everything is a pure function over immutable data.
  - A C string is a `string`. Its terminator is the end of the sequence, and `Args.At` yields `'\0'` where the C code reads one past the end.
  - A null pointer is an `Option`.
  - Maps and registries are `map`s.
  - The intrusive lists are `next`/`prev` maps together with an abstract node order.
- **C integer semantics.** Module `CInt` makes them explicit:
  - `Wrap32`/`Wrap64`/`U32` for casts and wrapping;
  - `TruncDiv` for C's division, which truncates toward zero.
- **What the game supplies.** Whether a spawn is within a search radius is a boolean parameter. So are the con level, the game's current heads of its map lists, and heap-allocation success.

## Where the model follows the code over the description

`FormatClassLine` with a class number other than 1 returns the blank line `" "` whenever the ClassCount stat is absent (mods/labels.cpp:280-284). The model follows the code: this happens before the range check on the class number, so class numbers 4, 0 or -1 also get `" "` when ClassCount is absent. Only with ClassCount present does a number outside 1..3 fail.

## Model

| member | source | states |
|---|---|---|
| `Args.GetNextArg` | mq_compat.cpp:344-390 | a null line gives ""; otherwise the result is always a suffix of the line (the scanner only moves forward) |
| `Args.NextArgPos` | mq_compat.cpp:346-362 | for a count below 1 exactly the leading separators are skipped (blank/tab, ',' in CSV mode, or only the custom separator) and the position stops on a non-separator |
| `Args.SkippedAreSeps` | mq_compat.cpp:353-359 | every character the separator loop passes over is a separator of the active mode |
| `Args.TokenEnd` | mq_compat.cpp:364-378 | the token scan stops only at a separator or the terminator, and moves past any non-separator first character |
| `Args.GetArg` | mq_compat.cpp:392-446 | a result exists iff both source and destination are non-null; the copied token never holds NUL and holds no '"' unless LeaveQuotes |
| `Args.CopyArg` | mq_compat.cpp:405-439 | the copy holds no NUL, drops every '"' unless LeaveQuotes, and is no longer than the text left |
| `Args.FirstWord` | mq_compat.cpp:401-446 | the first argument of a quote-free word followed by blank, tab or end is that word |
| `Args.NextWordShift` | mq_compat.cpp:364-387 | after a word and one blank, argument k of the line is argument k-1 of the remainder |
| `Args.ArgOfJoin` | mq_compat.cpp:392-446 | for words joined by single spaces, argument k is the k-th word: the splitter inverts the join |
| `Args.QuotedCopy` | mq_compat.cpp:416-432 | inside quotes separators are copied as text and the closing quote is dropped |
| `Args.QuotedFirstArg` | mq_compat.cpp:405-439 | `"p"` as the first argument yields p, blanks included |
| `Args.UnterminatedCopy` | mq_compat.cpp:418-422 | an unclosed quote copies the rest of the string up to its terminator |
| `Args.UnterminatedFirstArg` | mq_compat.cpp:418-422 | `"p` with no closing quote yields p |
| `Compat.GetIntFromString` | mq_compat.cpp:448-459 | null or empty input gives the default; after leading blanks and tabs, text starting with neither a digit nor '-' gives the default |
| `Compat.FromChars` | mq_compat.cpp:456-458 | a text with no number at the start leaves the default in place |
| `Compat.GetIntOfShow` | mq_compat.cpp:448-459 | blanks, a decimal numeral, then a non-digit: the numeral's value is read back when it fits in int, otherwise the default stays |
| `Compat.ShowInt` | mq_compat.cpp:448-459 | every int written in decimal reads back as itself, so the default is never used for such text |
| `Compat.CiEqualsLower` | mq_compat.cpp:474-484 | case-insensitive equality holds iff the lengths agree and the strings agree character by character under tolower |
| `Compat.Search` | mq_compat.cpp:495-496 | the first position from i where the needle matches case-insensitively, or the end when there is none |
| `Compat.CiFindSubstr` | mq_compat.cpp:493-500 | -1 iff the needle occurs nowhere; otherwise the index of its first case-insensitive occurrence |
| `Compat.CiMatches` | mq_compat.cpp:486-491 | exact mode is case-insensitive equality; otherwise true iff the needle occurs somewhere |
| `Compat.CiEqualFound` | mq_compat.cpp:486-500 | a non-empty haystack equal to the needle is found at index 0, so an exact match is also a substring match |
| `Compat.IsNamedName` | mq_compat.cpp:668-686 | names beginning "A_" or "An_" are not named; any other name is named iff it starts with '#' or an upper-case letter |
| `Compat.IsNamed` | mq_compat.cpp:657-687 | named iff the spawn exists, is an NPC, is not of class Object (62) and its name passes the name rule |
| `Compat.ConColor` | mq_compat.cpp:616-640 | no con level (no player, no spawn) gives white; levels 0 and 1 give grey, 2 green, 3 light blue, 4 blue, 5 white, 6 yellow, 7 red, and every higher level purple |
| `Compat.ConColorToARGB` | mq_compat.cpp:642-655 | grey draws 0xFF808080, green 0xFF00FF00, light blue 0xFF00FFFF, blue 0xFF0000FF, white 0xFFFFFFFF, yellow 0xFFFFFF00 and red 0xFFFF0000; every colour is fully opaque, and any code without an entry draws white |
| `Compat.ConColorsDrawn` | mq_compat.cpp:616-655 | con levels 2..7 draw pairwise different colours, all unlike grey; levels from 8 come back purple, which has no entry and draws like level 5 |
| `CompatTypes.TestAndSet` | mq_compat.h:240-247 | returns true iff the target differed from the value; the target ends equal to the value, unchanged when nothing differed |
| `CompatTypes.Color.ToRGB` | mq_compat.h:312 | the alpha byte is cleared and the three colour channels are kept |
| `CompatTypes.Color.Inverted` | mq_compat.h:314-322 | alpha kept; each colour channel becomes 255 minus itself |
| `CompatTypes.InvertInvolution` | mq_compat.h:319-322 | inverting twice gives the colour back |
| `CompatTypes.InvertedIsXor` | mq_compat.h:314-317 | the subtraction form equals flipping the low 24 bits of ARGB |
| `CompatTypes.RGBA` | mq_compat.h:290-291 | the four channel arguments land in the Red, Green, Blue and Alpha bytes of ARGB |
| `CompatTypes.ChannelsDetermineColor` | mq_compat.h:324-338 | colours with the same four channel bytes are equal, matching equality on ARGB |
| `CompatTypes.DefaultIsOpaqueBlack` | mq_compat.h:287-288 | the default colour is black with alpha 255 |
| `Commands.Normalize` | commands.cpp:21-30 | one leading '/' dropped, the rest lowercased, no upper-case letter in the result |
| `Commands.NormalizeIgnoresSlashAndCase` | commands.cpp:21-30 | a name with or without one leading slash, in any case, normalises to the same key |
| `Commands.AddCommand` | commands.cpp:35-40 | the normalised name maps to the new handler, replacing any earlier one; every other entry is untouched |
| `Commands.RemoveCommand` | commands.cpp:42-47 | the normalised name is gone; every other entry is untouched |
| `Commands.Shutdown` | commands.cpp:84-88 | the registry is empty |
| `Commands.WordEnd` | commands.cpp:63-65 | the token runs to the first blank, tab or terminator |
| `Commands.Dispatch` | commands.cpp:49-82 | a null or blank-only line is not handled; any handler invoked is one of the registered handlers |
| `Commands.DispatchLine` | commands.cpp:49-82 | for blanks + token + blanks + rest, the handler registered under the normalised token gets exactly rest; an unregistered token is not handled |
| `Commands.AddThenDispatch` | commands.cpp:35-82 | after registering a name, a line naming it (in any case, with or without '/') reaches the new handler |
| `Commands.RemoveThenDispatch` | commands.cpp:42-82 | after removing a name, a line naming it is not handled |
| `Commands.ShutdownSilences` | commands.cpp:49-88 | after shutdown no line is handled |
| `GameString.OverwriteRep` | mods/labels.cpp:61-90 | in place iff refCount is 1 and alloc exceeds the new length; otherwise (with heap) a fresh rep with refCount 1 while the old rep's count drops by one only if positive; no heap means no change |
| `GameString.OverwriteSound` | mods/labels.cpp:61-90 | on both paths the string ends holding the new text with length below alloc |
| `GameString.OverwriteCXStr` | mods/labels.cpp:50-90 | a null string, null text or null rep is a no-op; otherwise the rep is overwritten |
| `GameString.AllocGameStr` | mods/target_info.cpp:134-151 | allocation succeeds iff the allocator is set up and the heap gives memory; refCount 1, null text read as "", length = strlen, alloc = length + 16 |
| `GameString.AllocSound` | mods/target_info.cpp:138-149 | a fresh string's length is below its alloc and matches its text |
| `GameString.ReadCXStr` | mods/target_info.cpp:154-161 | a null base or null rep reads as "" |
| `GameString.AllocRead` | mods/target_info.cpp:134-161 | reading back a freshly allocated string gives the text, or "" for null |
| `Labels.Tier` | mods/labels.cpp:135-148 | the tier counts how many of the tops 50, 54, 59, 64 the level exceeds: tiers ≤50, 51-54, 55-59, 60-64, ≥65 |
| `Labels.TierMonotone` | mods/labels.cpp:135-148 | a higher level never gets a lower tier |
| `Labels.GetClassTitle` | mods/labels.cpp:135-148 | "Unknown" outside classes 1..16; otherwise one of that class's five titles, at most 14 characters |
| `Labels.TitleTable` | mods/labels.cpp:99-133 | 16 classes of 5 titles each; no title is "Unknown", and a class's titles are pairwise different |
| `Labels.TitleNamesTier` | mods/labels.cpp:135-148 | for a valid class two levels get the same title iff they are in the same tier |
| `Labels.LineReadsBack` | mods/labels.cpp:322 | the "%d %s" line reads back as the level, and after the number and one space comes the title |
| `Labels.FormatClassLine` | mods/labels.cpp:226-323 | line 1 comes from the stats, else from the player spawn, else fails; lines 2/3 are " " iff ClassCount is below the line number or the class is 0, and fail for a number outside 1..3; always under 256 characters |
| `Labels.ClassLineReadsBack` | mods/labels.cpp:286-322 | a shown line 2/3 reads back as that class's level followed by the title for that level |
| `Labels.FormatSynergy` | mods/labels.cpp:210-220 | fails iff the stat is absent; "" iff present and the character is not classless |
| `Labels.SynergyReadsBack` | mods/labels.cpp:210-220 | for a classless character the written text reads back as the stat value |
| `Labels.FormatLabel` | mods/labels.cpp:750-829 | types 1, 3, 4 show class lines 1, 2, 3; type 1006 and types 1020..1031 show the synergy stats 36 and 39..50 |
| `Labels.LabelDetour` | mods/labels.cpp:562-600 | nothing happens without server data or without a formatter result; otherwise the label string is overwritten with the text |
| `Labels.GaugeKeys` | mods/labels.cpp:612-639 | exactly gauge types 1, 2, 3 and 6 are overridden, each from a current stat paired with its maximum (keys 2/5, 3/6, 4/7) |
| `Labels.GaugeValue` | mods/labels.cpp:641-644 | a value exists iff data is present, both stats exist and max > 0; whenever nothing wraps it is cur/max in thousandths rounded toward zero, with the sign of cur (so negative for negative current HP, above 1000 past the maximum), and between 0 and 1000 for 0 ≤ cur ≤ max |
| `Labels.PermilleBounds` | mods/labels.cpp:644 | when cur·1000 fits in 64 bits and the quotient in int, the C quotient by max fits in int, is the permille truncated toward zero for either sign of cur, and is at most 1000 for 0 ≤ cur ≤ max |
| `Labels.GaugeDetour` | mods/labels.cpp:602-654 | an overridden gauge overwrites the string with the permille's decimal text; otherwise nothing changes |
| `Labels.GaugeTextReadsBack` | mods/labels.cpp:641-651 | the game parsing the gauge string gets the permille value back |
| `Labels.StatAsWritten` | mods/labels.cpp:663 | values above INT32_MAX−1 become INT32_MAX−1; values in range are returned; values below INT32_MIN are only congruent mod 2^32 (the cast wraps) |
| `Labels.StatAsWrittenEscapesCap` | mods/labels.cpp:663 | INT32_MIN−1 comes out as INT32_MAX, above the cap and above the value for 0 |
| `Labels.StatClamped` | mods/labels.cpp:658-666 | the result lies in INT32_MIN..INT32_MAX−1, exact in range, saturating at both ends |
| `Labels.StatClampedAgrees` | mods/labels.cpp:663 | the clamp is monotone and agrees with the code as written for every value from INT32_MIN up |
| `Labels.StatDetour` | mods/labels.cpp:658-716 | a cached value exists iff the stat is present; for every cached value from INT32_MIN up it is exactly what the code as written returns (the value itself in range, the cap above it); below that range it is the corrected clamp, so it never exceeds the cap |
| `StatCache.Classify` | mods/multiclass_data.cpp:51-68 | accepted only with the count field and 12·count entry bytes present, giving exactly count entries; a rejection means the packet is too short; never reads past the end |
| `StatCache.WrappedCountOverreads` | mods/multiclass_data.cpp:62-63 | a 12-byte packet declaring 0x15555556 entries passes the 32-bit size check and would be read past its end |
| `StatCache.AsWrittenAgrees` | mods/multiclass_data.cpp:59-68 | when 4 + 12·count does not wrap, the 32-bit check and the exact one agree |
| `StatCache.OnIncomingMessage` | mods/multiclass_data.cpp:46-89 | with the corrected size check: always returns true; the cache changes only on an accepted packet, which sets HasData and keeps every old key |
| `StatCache.AgreesUnlessOverread` | mods/multiclass_data.cpp:60-77 | unless the wrapped size check lets a short packet through, the check as written and the corrected check give the same outcome |
| `StatCache.OnIncomingMessageAsWritten` | mods/multiclass_data.cpp:46-89 | the handler as written reads past the packet exactly when the wrapped check passes a short packet, and on every other message does what the corrected handler does |
| `StatCache.EntryRoundTrip` | mods/multiclass_data.h:90-104 | a packed 12-byte entry (uint32 key, int64 value, little-endian) decodes to itself |
| `StatCache.EntriesRoundTrip` | mods/multiclass_data.h:90-104 | a run of packed entries decodes to the same entries |
| `StatCache.PacketRoundTrip` | mods/multiclass_data.cpp:46-89 | an encoded EdgeStat packet is accepted with its entries, and the cache becomes the old map upserted with them, HasData set |
| `StatCache.Upsert` | mods/multiclass_data.cpp:72-77 | old keys and packet keys are present afterwards, and nothing else |
| `StatCache.UpsertLastWins` | mods/multiclass_data.cpp:72-77 | a key takes the value of its last occurrence in the packet; keys absent from the packet keep their presence and value |
| `StatCache.GetStat` | mods/multiclass_data.cpp:95-101 | 0 for an absent key, the stored value otherwise |
| `StatCache.GetClassCount` | mods/multiclass_data.cpp:113-116 | the ClassCount stat narrowed to int: equal when in range, congruent mod 2^32 otherwise |
| `StatCache.Shutdown` | mods/multiclass_data.cpp:34-39 | afterwards no stat is present, every query gives 0, and HasData is false |
| `StatCache.QueryAfterPacket` | mods/multiclass_data.cpp:72-106 | after a packet a key in it is present with its last value; any other key answers as before |
| `MapFilters.TableWellFormed` | mods/map/map_object.cpp:39-151 | 37 entries in enum order, each requiring Invalid or a strictly earlier option |
| `MapFilters.TableShape` | mods/map/map_object.cpp:39-151 | every prerequisite chain in the shipped table ends at All, and every option is a toggle |
| `MapFilters.ColorlessOptions` | mods/map/map_object.cpp:39-151 | exactly All, PCConColor, NPCConColor, Vector, Custom, NormalLabels, ContextMenu and Marker carry NoColor |
| `MapFilters.GetOption` | mods/map/map.h:170-176 | the table entry for a filter in [All, Last), else the invalid option (disabled, requiring Invalid) |
| `MapFilters.IsOptionEnabled` | mods/map/map.h:178-185 | Invalid counts as enabled, other out-of-range filters as disabled, and an enabled option has its own flag set |
| `MapFilters.EnabledIffChainEnabled` | mods/map/map.h:178-185 | an option is enabled iff every option on its prerequisite chain has its Enabled flag set |
| `MapFilters.EnabledFrame` | mods/map/map.h:178-185 | enabledness depends only on the flags and links of the option and those before it |
| `MapFilters.RequirementsMet` | mods/map/map.h:187-194 | out-of-range filters pass; for an option whose own flag is set it coincides with IsOptionEnabled |
| `MapFilters.RequirementsIgnoreOwnFlag` | mods/map/map.h:187-194 | changing an option's own flag never changes whether its requirements are met |
| `MapFilters.AllGatesEverything` | mods/map/map_object.cpp:39-151 | with All disabled no option of a table rooted at All is enabled |
| `MapCommands.SetEnabled` | mods/map/map_commands.cpp:102-118 | only the chosen option's Enabled flag changes |
| `MapCommands.FindOption` | mods/map/map_commands.cpp:701-704 | the first option whose name matches case-insensitively, and none iff no name matches |
| `MapCommands.MapFilterSetting` | mods/map/map_commands.cpp:41-162 | out of game, with unmet requirements or without a value nothing changes; a toggle changes only its own Enabled flag; the table's shape is kept |
| `MapCommands.ToggleValues` | mods/map/map_commands.cpp:102-118 | "hide" (any case) disables, "show" enables, and any other value flips the flag |
| `MapCommands.FlipTwice` | mods/map/map_commands.cpp:102-118 | applying the same flipping value twice restores the filters |
| `MapCommands.AllOffBlocksSettings` | mods/map/map_commands.cpp:55-60 | with All disabled, no other option can be changed |
| `MapCommands.Channel` | mods/map/map_commands.cpp:189-191 | a missing component reads as 255 |
| `MapCommands.ChannelClamps` | mods/map/map_commands.cpp:189-191 | components below 0 become 0 and above 255 become 255 |
| `MapCommands.MapFilterColorSetting` | mods/map/map_commands.cpp:168-201 | NoColor options are untouched; no red argument resets to the default colour; otherwise the colour is opaque; only that option's colour changes |
| `MapCommands.ColorRoundTrip` | mods/map/map_commands.cpp:179-192 | "name r g b" with components in 0..255 sets exactly the colour (r, g, b) with alpha 255 |
| `MapCommands.MapActiveLayer` | mods/map/map_commands.cpp:306-323 | a change only ever lands in 0..3; a null line keeps the layer; a parsed value in 0..3 is taken |
| `MapCommands.ActiveLayerOfShow` | mods/map/map_commands.cpp:306-315 | the decimal text of v selects layer v exactly when v is in 0..3 |
| `MapCommands.SetSlot` | mods/map/map_commands.cpp:607-655 | only slot GetInt(arg) may change, and only when it is in 1..15; "list" or an empty rest changes nothing |
| `MapCommands.MapClickCommand` | mods/map/map_commands.cpp:599-671 | an empty line changes nothing; "left" edits only the left-click slots, anything else only the special-click slots |
| `MapCommands.ClickStore` | mods/map/map_commands.cpp:649 | "left n cmd" with n in 1..15 stores cmd verbatim in left slot n |
| `MapCommands.ClickClear` | mods/map/map_commands.cpp:638-640 | "left n clear" empties left slot n |
| `MapCommands.SetMarker` | mods/map/map_commands.cpp:685-738 | a missing type, missing shape, unknown shape, zero or unparsable size, or unknown type leaves the options unchanged; on success the named option gets the marker and the size, 6 when none is given |
| `MapCommands.MarkerRoundTrip` | mods/map/map_commands.cpp:677-739 | "type shape size" with a known type, a known shape and a non-zero size sets exactly that option's marker and size |
| `MapCommands.PulseReset` | mods/map/map_commands.cpp:452-457 | increasing, index 0, and the step is SIDELEN/10 truncated toward zero |
| `MapApi.SurvivorsContents` | mods/map/map_api.cpp:614-636 | exactly the objects whose spawn does not match survive, and survivors plus removed add up to the original count |
| `MapApi.MapHide` | mods/map/map_api.cpp:614-636 | the objects left are the survivors and the count is the number of matching objects removed |
| `MapApi.MapHighlight` | mods/map/map_api.cpp:584-612 | without a search every highlight is cleared and the count is 0; with one each matching object is lit, the rest keep theirs, and the count is the number of matches; no other field changes |
| `MapApi.MapShow` | mods/map/map_api.cpp:638-655 | only matching spawns without an object are added and counted, and afterwards every matching spawn has an object |
| `MapApi.FindMarker` | mods/map/map_api.cpp:791-805 | "none" gives no marker; a different result is the shape whose name matches case-insensitively; a non-shape gives the fallback |
| `MapApi.MarkerNameRoundTrip` | mods/map/map_api.cpp:791-805 | each shape's own name finds that shape |
| `MapApi.FindMarkerIgnoresCase` | mods/map/map_api.cpp:791-805 | names that agree up to case find the same marker |
| `MapFormat.Specifier` | mods/map/map_object.cpp:361-398 | %N/%n give the object text, %h gives "1", %i and %l give "0", %x/%y/%z the coordinate texts, %% gives "%", and an unknown %c is emitted verbatim |
| `MapFormat.LonePercentOverreads` | mods/map/map_object.cpp:342-359 | as written, the format "%" reads the character after the terminator |
| `MapFormat.TrailingPercentOverreads` | mods/map/map_object.cpp:342-359 | any complete format followed by a lone '%' overreads as written; the corrected format keeps the '%' |
| `MapFormat.AsWrittenAgrees` | mods/map/map_object.cpp:342-359 | on formats with no lone trailing '%' the corrected formatter agrees with the code as written |
| `MapFormat.FormatEscape` | mods/map/map_object.cpp:342-398 | escaping '%' as "%%" and formatting gives the literal text back |
| `MapFormat.NameFormat` | mods/map/map_object.cpp:342-398 | "pre%Npost" with escaped literals gives pre + name + post |
| `MapFormat.FormatAppend` | mods/map/map_object.cpp:342-359 | formatting a concatenation is the concatenation of the formats when the first part is complete |
| `MapFormat.Substitute` | mods/map/map_api.cpp:679-707 | output so far is kept as a prefix and the result never exceeds MAX_STRING−1 characters |
| `MapFormat.SubstituteShort` | mods/map/map_api.cpp:679-707 | when everything fits, the result is the full expansion of %x, %y and %z with every other character copied |
| `MapFormat.DroppedReplacement` | mods/map/map_api.cpp:690-700 | a replacement that does not fit is dropped but its placeholder is still consumed |
| `MapFormat.ClickCommand` | mods/map/map_api.cpp:661-710 | nothing for a modifier index outside [0,16) or an empty slot; otherwise a command under MAX_STRING characters |
| `MapFormat.ClickShort` | mods/map/map_api.cpp:661-710 | a short enough command comes out fully expanded |
| `MapLists.PushFront` | mods/map/map_object.cpp:277-283 | the new node becomes the head, pointing forward to the old head and back to nothing |
| `MapLists.PushFrontValid` | mods/map/map_object.cpp:277-283 | pushing a fresh node onto a valid list gives a valid list with that node first |
| `MapLists.InitNode` | mods/map/map_object.cpp:240-253 | insertion is at the head; the tail is the new node iff the list was empty, otherwise unchanged |
| `MapLists.InitNodeValid` | mods/map/map_object.cpp:197-210 | insertion keeps the list valid and puts the new node in front of the old order |
| `MapLists.InitIntoEmpty` | mods/map/map_object.cpp:240-253 | into an empty list the new node is both head and tail |
| `MapLists.Unlink` | mods/map/map_object.cpp:308-314 | the node leaves the link maps |
| `MapLists.UnlinkValid` | mods/map/map_object.cpp:255-271 | unlinking node k keeps the list valid with order = old order minus node k, others in the same order |
| `MapLists.UnlinkKeeps` | mods/map/map_object.cpp:255-271 | only the removed node's neighbours get new links, and those bridge over it |
| `MapLists.UnlinkObjectValid` | mods/map/map_object.cpp:291-314 | removing an object keeps the active list valid, and removing the first advances the head |
| `MapLists.DeleteNode` | mods/map/map_object.cpp:212-225 | the node is gone, and the tail moves back to its predecessor when it was last |
| `MapLists.DeleteNodeValid` | mods/map/map_object.cpp:212-225 | deletion keeps head, tail and links valid for the order without that node |
| `MapLists.DeleteLine` | mods/map/map_object.cpp:255-271 | deleting null is a no-op |
| `MapLists.MapAttach` | mods/map/map_api.cpp:527-554 | nothing without the game's heads; otherwise our label head replaces the game's (old head saved) and our line head replaces the game's |
| `MapLists.AttachChainsLines` | mods/map/map_api.cpp:548-553 | after attaching, the game's line list is ours followed by the game's old lines |
| `MapLists.AttachChainsLabels` | mods/map/map_api.cpp:535-546 | with NormalLabels on, the game's label list is ours followed by the game's old labels |
| `MapLists.MapDetach` | mods/map/map_api.cpp:556-578 | detaching without a prior attach changes nothing; an attached label list restores the saved game head |
| `MapLists.DetachUndoesAttach` | mods/map/map_api.cpp:527-578 | detach after attach restores our lists and the game's heads exactly, apart from the saved-head slot |
| `MapLocs.LabelText` | mods/map/map_object.cpp:1312-1330 | the index alone for an empty caption; otherwise "index: caption", cut to the 511 characters the buffer holds |
| `MapLocs.UpdateLabel` | mods/map/map_object.cpp:1312-1330 | without a map object nothing changes; otherwise only the displayed text changes, to the label text |
| `MapLocs.SetIndex` | mods/map/map_object.cpp:1294-1298 | sets the index, keeps the displayed label current, and is a no-op when the index is unchanged |
| `MapLocs.SetLabel` | mods/map/map_object.cpp:1300-1304 | sets the caption, keeps the displayed label current, and is a no-op when the caption is unchanged |
| `MapLocs.Renumber` | mods/map/map_object.cpp:1560-1567 | indices become exactly 1..n in list order and nothing but index and text changes |
| `MapLocs.RenumberDense` | mods/map/map_object.cpp:1560-1567 | renumbering an already dense list changes nothing |
| `MapLocs.AddMapLoc` | mods/map/map_object.cpp:1569-1574 | appends the location with index n+1 and keeps the list dense |
| `MapLocs.DeleteMapLoc` | mods/map/map_object.cpp:1576-1583 | the result is dense |
| `MapLocs.DeleteIds` | mods/map/map_object.cpp:1576-1583 | the ids left are the old ids in order without the deleted one |
| `MapLocs.DeleteSelected` | mods/map/map_object.cpp:1585-1593 | the result is dense |
| `MapLocs.DeleteSelectedContents` | mods/map/map_object.cpp:1585-1593 | no selected location survives and every unselected one does |
| `MapLocs.DeleteKeepsLabels` | mods/map/map_object.cpp:1576-1593 | both deletions keep every displayed label current with its new index |
| `MapLocs.GetMapLocByIndex` | mods/map/map_object.cpp:1539-1545 | found iff 1 ≤ i ≤ n, and then it is element i−1 |
| `MapLocs.IndexLookup` | mods/map/map_object.cpp:1539-1545 | in a dense list the location found carries the index asked for, and any index some location carries is found |
| `MapLocs.GetByTag` | mods/map/map_object.cpp:1528-1537 | the first location with that tag, and none iff no location has it |
| `MapLocs.TagPart` | mods/map/map_api.cpp:881-891 | the coordinate with every '+' removed and cut at the first '.', so it holds neither |
| `MapLocs.TagOfDecimal` | mods/map/map_api.cpp:881-891 | a decimal "[+]n.frac" truncates to the integer text of n |
| `MapLocs.IntegerTag` | mods/map/map_api.cpp:881-893 | integer coordinates give the tag "y,x,z" unchanged |
| `MapLocs.TagPartIdempotent` | mods/map/map_api.cpp:881-891 | truncating a truncated coordinate changes nothing |
| `SpawnSearch.ParseSearchSpawn` | mq_compat.cpp:731-891 | a null buffer leaves the search alone |
| `SpawnSearch.Take` | mq_compat.cpp:743-747 | each argument taken shortens the rest, so the loop ends |
| `SpawnSearch.BlankLineIsDefault` | mq_compat.cpp:731-747 | a blank line parses to the default search |
| `SpawnSearch.RangeParsed` | mq_compat.cpp:831-840 | "range a b" gives the default search with MinLevel a and MaxLevel b |
| `SpawnSearch.RangeFilters` | mq_compat.cpp:893-976 | a spawn matching "range a b" has a level in [a, b] |
| `SpawnSearch.IdParsed` | mq_compat.cpp:853-859 | "id n" sets SpawnID n and bSpawnID, and every matching spawn has id n |
| `SpawnSearch.NameSearch` | mq_compat.cpp:878-889 | unrecognised words are joined into the name with single spaces |
| `SpawnSearch.EmptyQuotesStop` | mq_compat.cpp:743-747 | an empty first argument ends parsing, so the rest is ignored |
| `SpawnSearch.Matches` | mq_compat.cpp:893-976 | a spawn matches iff it has the searched type, a level within [Min, Max], the id when bSpawnID, not NotID, a matching name, is named when asked, is no pet when asked, and is within range |
| `SpawnSearch.DefaultMatchesAll` | mq_compat.h:346-394 | the default search matches every spawn of level up to 200 that is within range |
| `TargetInfo.ParseRectFields` | mods/target_info.cpp:705-724 | fields 0..3 of the comma split set top, bottom, left and right; an empty or missing field keeps its default |
| `TargetInfo.RectRoundTrip` | mods/target_info.cpp:705-724 | "top,bottom,left,right" parses back to the same rectangle |
| `TargetInfo.ExtraFieldsIgnored` | mods/target_info.cpp:705-724 | fields after the fourth change nothing |
| `TargetInfo.GetBoolFromString` | mods/target_info.cpp:730-736 | on/true/1 give true, off/false/0 false (any case), anything else and null give the default |
| `TargetInfo.OnOffDisjoint` | mods/target_info.cpp:730-736 | no word is both an on word and an off word |
| `TargetInfo.TargetInfoCommand` | mods/target_info.cpp:742-803 | updated iff a flag is named, reload iff "reload" is named instead; the named flag gets the parsed value, defaulting to its negation |
| `TargetInfo.ToggleTwice` | mods/target_info.cpp:748-782 | a flag named with no value flips, and naming it twice restores the flags |
| `TargetInfo.SetExplicitly` | mods/target_info.cpp:748-782 | "flag on" and "flag off" set exactly that flag |
| `TargetInfo.Set` | mods/target_info.cpp:748-782 | only the chosen flag changes |
| `TargetInfo.StripCrLf` | mods/target_info.cpp:590-593 | only trailing CR/LF are removed, and at least one character stays |
| `TargetInfo.CutFieldsCount` | mods/target_info.cpp:567-589 | the field cut fails iff the line has fewer carets than needed |
| `TargetInfo.ParsePhLine` | mods/target_info.cpp:567-593 | a line is skipped iff it has fewer than four '^' |
| `TargetInfo.PhLineRoundTrip` | mods/target_info.cpp:567-593 | a line written as Named^PHs^Expansion^Zone^Link plus CR/LF parses back to those fields |
| `TargetInfo.EmptyLinkKeepsCr` | mods/target_info.cpp:591-592 | with an empty link the first line-end character survives as the link |
| `PhMap.SplitThrows` | mods/target_info.cpp:595-616 | the split as written throws iff some cut leaves a comma as the last character |
| `PhMap.TrailingCommaThrows` | mods/target_info.cpp:605-611 | "a," throws as written; the corrected split gives "a" and the empty key |
| `PhMap.SplitAgrees` | mods/target_info.cpp:595-616 | whenever the code as written does not throw, it agrees with the corrected split |
| `PhMap.SplitJoin` | mods/target_info.cpp:595-616 | names free of commas joined by ", " split back to themselves |
| `PhMap.SplitLast` | mods/target_info.cpp:604-611 | the last ", " piece becomes the last key |
| `PhMap.LoadLine` | mods/target_info.cpp:567-616 | with the corrected split: a line adds a record under each of its keys and keeps all other entries |
| `PhMap.LoadLinesLatest` | mods/target_info.cpp:553-621 | with the corrected split: after loading, a key holds the record of the last line naming it, or its earlier value |
| `PhMap.LookupLatest` | mods/target_info.cpp:623-636 | with the corrected split: a name looks up the last record loaded for it, and nothing when the file is missing |
| `PhMap.PhKeysAgree` | mods/target_info.cpp:595-616 | the keys as written fail exactly on a split list with a dangling comma, and are the corrected keys otherwise |
| `PhMap.LoadLineAsWritten` | mods/target_info.cpp:567-616 | one line as the loop handles it: the exception exactly when the line's split list has a dangling comma, and otherwise the corrected pass |
| `PhMap.LoadLinesAgrees` | mods/target_info.cpp:553-621 | the load as written is abandoned iff some line throws, and otherwise builds the same map as the corrected load |
| `PhMap.LoadAsWritten` | mods/target_info.cpp:553-636 | the program's load of a file throws iff a line has a dangling comma; when it completes, every name looks up the latest record the file gives it |
| `PhMap.PhButtonLink` | mods/target_info.cpp:641-655 | a link opens iff a record exists for the target and its link is non-empty |
| `TargetRects.GetParentRect` | mods/target_info.cpp:1226-1236 | no window, or a rectangle whose four coordinates are all zero, gives nothing |
| `TargetRects.ComputeChildRect` | mods/target_info.cpp:1238-1260 | a placement exists iff there is a child and a parent rectangle |
| `TargetRects.OffsetsRoundTrip` | mods/target_info.cpp:1253-1258 | the offsets can be read back from where the child lands, so the layout loses nothing |
| `TargetRects.ChildFollowsParent` | mods/target_info.cpp:1253-1258 | moving the parent moves every child by the same amount and keeps its size |
| `TargetRects.WidenParent` | mods/target_info.cpp:1253-1258 | widening the parent widens a child by as much only when it is anchored left-to-left and right-to-right |
| `TargetRects.ComputeCanSeeRect` | mods/target_info.cpp:1262-1276 | placed iff there is a child and a laid-out parent; 16 wide; top is parent top plus offset; height is the offset difference when positive, and exactly 14 otherwise |
| `TargetRects.CanSeeCentred` | mods/target_info.cpp:1262-1276 | the box's centre is the parent's horizontal centre (C division) moved by the shift |

## Left out

- Process and hook plumbing is left out because it is OS-level: DLL export forwarding, hook installation, logging, `core.cpp`, `game_state.cpp`, and every raw-offset accessor with its structured-exception guards.
- `config.cpp`, INI reading and writing (`WritePrivateProfile*`) and chat output are not modelled because they are Win32 side effects.
- Floating point is left out: radii, `loc` coordinates, distances, `GetFloatFromString`, `%.1f`/`%.2f` texts, and weight and speed. The spawn search takes "within distance" as a boolean, and a float text spliced into a string is a string parameter.
- `FormatStatInt`, `FormatDual`, `FormatWeight`, `FormatSpeed`, `FormatDualWeight` and the weight/speed detours are not modelled. They are plain `%lld` or float formatting of cached stats.
- Label-map entries other than the class lines and synergy stats are not modelled.
- `GetSpawnType`, `MapSelectTarget`, `MapFilterRadiusSetting`, spawn and object creation, `MapGenerate`, `MapUpdate` and the `map_mod.cpp` draw state machine are not modelled. They read game memory or are driven by game callbacks.
- `/mapclick ... list` and `/mapclick n` with no text only print, so the model leaves the slots unchanged for them.
- `MapFilterSetting` is modelled for the option state only. Its chat output and INI writes are left out, and so are the regenerate calls.
- The file reading in `LoadPHs` (`fgets` in 2048-byte chunks), its mutex, `ShellExecuteA`, window creation and `UpdateInventoryTitle` are not modelled. `LoadPHs` is modelled from a sequence of lines.
- `spellbook_unlock.cpp` is left out because it only returns constants.
- Labels.FormatLabel: types in the label table that are not class lines or synergy levels (the base stats, resists, weight, speed and others) give no result here. In the code they are overwritten with the stat's text.
- Compat.ConColor: the game's con level is a parameter, and None stands for a missing player, PC, spawn or con function.
- SpawnSearch.Matches: the distance verdict is a parameter because it is computed in floating point. The program itself parses the flag words xtarhater, next, prev, lfg, gm, group, nogroup, raid, noguild, trader, merchant, banker, tank, healer, dps, slower, los and targetable but never tests them when matching (mq_compat.cpp:893-976), and the model matches likewise.
- SpawnSearch.ParseSearchSpawn: the 2048-byte name buffer is unbounded here, so the `strcat_s` overflow failure is not modelled.
- TargetRects.ComputeChildRect: edges are unbounded integers, so 32-bit overflow of screen coordinates is not modelled.
- TargetRects.ComputeCanSeeRect: likewise unbounded, so the `int` overflow of `pL + pR` and of `bottomOff - topOff` is not modelled.
- MapFormat.Substitute: the coordinate texts are parameters, because they come from `%.2f` formatting.
- MapFormat.Specifier: models the base `MapObject::HandleFormatSpecifier` only. The `MapObjectSpawn` override (mods/map/map_object.cpp:840-894) reads names, HP, id, level, race and class from game memory. The `MapObjectGroundSpawn` override (mods/map/map_object.cpp:1114-1127) makes `%N`/`%n` replace the output built so far with the item's friendly name. Both are left out because they read game objects.
- MapApi.MapShow: a spawn counts as already shown when its id is in `shown`, where the program compares spawn pointers (`FindMapObject`, mods/map/map_api.cpp:645). Two list entries sharing an id are therefore shown once here and twice in the program.
- GameString.OverwriteRep: alloc and length are `uint32` fields, but their sizing is checked only in `OverwriteSound`, which assumes the text is shorter than 2^32 − 64. Longer texts are not meaningful for the game.
- Labels.StatDetour: returns the corrected clamp `StatClamped`. For a cached value below INT32_MIN the program wraps instead (INT32_MIN − 1 comes back as INT32_MAX); that behaviour is stated by `StatAsWritten` and `StatAsWrittenEscapesCap`, and the detour's contract states agreement with it from INT32_MIN up.
- Labels.GaugeValue: when cur·1000 overflows 64 bits or the quotient leaves the int range, only the existence of a value is stated; the body still performs the C wrap-around.
- StatCache.OnIncomingMessage: uses the corrected size check. The program's read past a short packet whose count makes the size check wrap is undefined behaviour and is represented only by `None` from `StatCache.OnIncomingMessageAsWritten`, with `StatCache.WrappedCountOverreads` as the example.
- PhMap.LoadLine: uses the corrected split. The program throws on a split list with a dangling comma; that is `PhMap.LoadLineAsWritten`.
- PhMap.LoadLinesLatest: holds for the corrected load only. The program's load stops at the first line that throws (`PhMap.LoadLinesAgrees`), and the partially filled map it leaves behind, together with whatever the uncaught exception does to the game process, is not modelled.
- PhMap.LookupLatest: states lookups over the corrected load; for the program's own load it holds exactly when no line throws (`PhMap.LoadAsWritten`).

## Findings

| source | as written | input that shows it | evidently intended | confidence | as-written member | corrected member |
|---|---|---|---|---|---|---|
| mods/map/map_object.cpp:342-359 | after a '%' the next character is consumed unconditionally, so a format ending in a lone '%' steps over the terminator and keeps reading | the format "%" | a trailing '%' is copied as "%" and formatting stops at the terminator | not executed | `MapFormat.LonePercentOverreads` | `MapFormat.Format` |
| mods/multiclass_data.cpp:62-63 | the expected size 4 + 12·count is computed in `uint32_t` and wraps for large counts | a 12-byte EdgeStat packet declaring 0x15555556 entries: 4 + 12·0x15555556 wraps to 12, the check passes and the loop reads far past the buffer | the bound computed without wrap-around (or count limited), rejecting the packet | not executed | `StatCache.WrappedCountOverreads` | `StatCache.Classify` |
| mods/labels.cpp:663 | only the upper clamp is applied before the cast to `int32_t`, so values below INT32_MIN wrap | a cached stat of INT32_MIN − 1 comes back as INT32_MAX, above the cap of INT32_MAX − 1 | a clamp to [INT32_MIN, INT32_MAX − 1] | not executed | `Labels.StatAsWrittenEscapesCap` | `Labels.StatClamped` |
| mods/target_info.cpp:605-611 | `phs.substr(commapos + 2)` throws `std::out_of_range` when the last comma is the last character | a PH list "a," (a comma and none of the exempt names) | the trailing piece becomes an empty key instead of aborting the load | not executed | `PhMap.TrailingCommaThrows` | `PhMap.SplitPhs` |
