# SettingsPlugin platform adapters in Dafny

SettingsPlugin gives every platform a single `ISettings` API: `GetValueOrDefault`, `AddOrUpdateValue`,
`Remove`, `Clear` and `Contains`, keyed by a string and scoped by an optional file name. Behind it, eight
adapters store the values in the platform's own key-value store:

- SharedPreferences on Android, in two adapters (`Android` and `AndroidLegacy`).
- NSUserDefaults on iOS, in two adapters (`IOS` and `IOSUnified`).
- ApplicationData containers on UWP and Windows Phone 8.1 (`Uwp` and `WindowsPhone81`).
- One isolated-storage file per key on .NET 4.5 (`Net45`).
- The `Preference` store on Tizen (`Tizen`).

Each native store is an in-memory `map` from key to a tagged primitive: bool, int, long, float, string,
Guid, byte, or a null entry. Each adapter is a `class` over that map. Its methods have the source's
names, and their `ensures` give the result and the new state of the map. Behind each method are pure
functions that do the work:

- the codec: what a write stores, and what a read decodes;
- scope resolution;
- the change detection.

Lemmas about these functions prove what the adapters promise and where they differ:

- write-then-read round trips;
- the signed-tick DateTime encoding;
- absent-key, null and blank-text handling;
- how far `Clear` reaches;
- when an unsupported type is rejected.

The .NET library calls the adapters use are shared modules:

- `Integers`: `long.Parse`, `Convert.ToInt32`, `Convert.ToInt64`, `Convert.ToByte`.
- `Decimals`: decimal text and the `(long)` cast.
- `DateTimes`: ticks, `ToUniversalTime`, and the `-(UTC ticks)` encoding.
- `Guids`: the hyphenated 8-4-4-4-12 form of RFC 4122 section 3.
- `Strings`: white space and `bool` text.
- `Values`: the CLR types, `Convert.ToString` and static typing.

Three native stores have their own shared module, because two adapters use each of them:

- `AndroidPreferences`: the SharedPreferences getters, plus the codec and decode switch both Android
  adapters share.
- `UserDefaults`: the NSUserDefaults getters and suite resolution.
- `ApplicationData`: containers, boxing and unboxing, and the read path UWP and Windows Phone 8.1 share
  line for line.

An exception is an `Err` of a `Result`, and null is `None`. `Admits(t, v)` states what C# static typing
lets a caller pass as a `T`.

## Model

| member | source | states |
|---|---|---|
| DateTimes.EncodeTicks | src/Plugin.Settings/Settings.android.cs:260-262 | a write stores `-(UTC ticks)`; the value is never positive and the negation cannot overflow an Int64 |
| DateTimes.DecodeTicks | src/Plugin.Settings/Settings.android.cs:159-178 | a stored count decodes iff its magnitude is at most DateTime.MaxValue.Ticks; a non-negative count gives an unspecified-kind DateTime, a negative one the UTC DateTime of its negation |
| DateTimes.DecodeEncode | src/Plugin.Settings/Settings.android.cs:159-178 | decoding the encoding of any DateTime gives its UTC instant (legacy kind at tick 0) |
| DateTimes.UtcZeroReadsAsLegacy | src/Plugin.Settings/Settings.android.cs:162-167 | UTC tick 0 is stored as 0 and reads back as DateTime.MinValue of unspecified kind, not as the UTC value written |
| DateTimes.EncodeTicksText | src/Plugin.Settings.iOS/Settings.cs:160-161 | the text of the tick encoding starts with '-' iff the UTC instant is after tick 0 |
| DateTimes.DecodeTicksText | src/Plugin.Settings.iOS/Settings.cs:74-88 | stored text is decoded by sign: text that is not an integer is a FormatException, an integer outside Int64 an OverflowException, and an integer within the tick range gives `DecodeTicks` of it (non-negative: a legacy unspecified-kind DateTime; negative: the UTC DateTime of its negation) |
| DateTimes.DecodeEncodeText | src/Plugin.Settings.iOS/Settings.cs:74-88 | the text of the tick encoding decodes to the UTC instant written |
| DateTimes.NewDateTime | src/Plugin.Settings/Settings.android.cs:166-171 | `new DateTime(ticks, kind)` succeeds iff the ticks lie in [0, MaxValue.Ticks], otherwise ArgumentOutOfRangeException |
| DateTimes.ToUniversalTime | src/Plugin.Settings/Settings.android.cs:261 | the result is UTC, and a UTC value is unchanged |
| Integers.UncheckedNegate | src/Plugin.Settings/Settings.android.cs:171 | `-ticks` in unchecked C# arithmetic: the true negation except at Int64.MinValue, which maps to itself |
| Integers.FormatInteger | src/Plugin.Settings.iOS/Settings.cs:145-146 | the invariant text of an integer starts with '-' iff it is negative |
| Integers.ParseInteger | src/Plugin.Settings.Net45/Settings.cs:195-198 | the integer syntax of the invariant parsers accepts every non-empty digit string, with its value |
| Integers.ParseFormat | src/Plugin.Settings.iOS/Settings.cs:51-52 | parsing the invariant text of any integer gives it back |
| Integers.LongRoundTrip | src/Plugin.Settings.iOS/Settings.cs:51-52 | `long.Parse(n.ToString())` gives back every Int64 |
| Integers.Int32RoundTrip | src/Plugin.Settings.Net45/Settings.cs:190-193 | `Convert.ToInt32` of an Int32's text gives it back |
| Integers.ByteRoundTrip | src/Plugin.Settings.Net45/Settings.cs:200-203 | `Convert.ToByte` of a byte's text gives it back |
| Integers.ParseIntegerIn | src/Plugin.Settings.Net45/Settings.cs:190-203 | a range-checked parse: FormatException iff the text is not an integer, OverflowException outside the range |
| Integers.LongParse | src/Plugin.Settings.iOS/Settings.cs:51-52 | `long.Parse` of null raises ArgumentNullException; a parsed value is the text's integer |
| Integers.ConvertToInt64 | src/Plugin.Settings.iOSUnified/Settings.cs:50-52 | `Convert.ToInt64` of null is 0, otherwise it is `long.Parse` |
| Integers.ConvertToInt32 | src/Plugin.Settings.Net45/Settings.cs:190-193 | an Int32 result is the text's integer, and every in-range integer text converts |
| Integers.ConvertToByte | src/Plugin.Settings.Net45/Settings.cs:200-203 | a byte result is the text's integer, and every integer text in [0, 255] converts |
| Decimals.FormatDecimal | src/Plugin.Settings/Settings.android.cs:236-237 | the invariant text of a decimal is non-empty, starts with '-' iff the value is negative, else with a digit |
| Decimals.ParseDecimal | src/Plugin.Settings/Settings.android.cs:91 | a failed parse is a FormatException or an OverflowException; a successful one had non-empty text |
| Decimals.ParseFormat | src/Plugin.Settings/Settings.android.cs:88-91 | parsing a decimal's invariant text gives back the same mantissa and scale |
| Decimals.ConvertToDecimal | src/Plugin.Settings.iOSUnified/Settings.cs:43-45 | `Convert.ToDecimal` of null is zero |
| Decimals.ToInt64 | src/Plugin.Settings/Settings.android.cs:78 | `(long)d` truncates toward zero (its magnitude is the integral part, its sign the decimal's) and raises OverflowException outside the Int64 range |
| Guids.FormatGuid | src/Plugin.Settings/Settings.android.cs:263-267 | a Guid's text is 36 characters long |
| Guids.ParseGuid | src/Plugin.Settings.iOS/Settings.cs:70 | the parse succeeds iff the text is in hyphenated 8-4-4-4-12 form, and each parsed nibble is the value of its hex digit |
| Guids.TryParseGuid | src/Plugin.Settings.iOS/Settings.cs:63-72 | the `out` value of a failed `Guid.TryParse` is Guid.Empty |
| Guids.ParseFormat | src/Plugin.Settings/Settings.android.cs:184 | parsing the text of any Guid gives it back |
| Strings.ParseBoolean | src/Plugin.Settings.Net45/Settings.cs:185-188 | `Convert.ToBoolean` accepts "True"/"False" in any case after trimming, else raises FormatException |
| Strings.BooleanRoundTrip | src/Plugin.Settings.Net45/Settings.cs:185-188 | `Convert.ToBoolean(Convert.ToString(b))` is b |
| Values.TypeCodeOf | src/Plugin.Settings/Settings.android.cs:53-60 | Guid, object and every other class share TypeCode.Object |
| Values.TypeOf | src/Plugin.Settings.Net45/Settings.cs:36-41 | `value.GetType()` is never object |
| Values.ConvertToSingle | src/Plugin.Settings.Net45/Settings.cs:155-158 | `Convert.ToSingle` of a string succeeds iff the host's parser accepts it |
| Values.ConvertToString | src/Plugin.Settings.Net45/Settings.cs:68 | `Convert.ToString` of null is "", of a string the string, of a decimal or long its invariant text; a DateTime is outside its domain (every adapter converts a DateTime to ticks first) |
| Values.PrimitiveToString | src/Plugin.Settings.UWP/Settings.cs:46 | `Convert.ToString` of a stored entry is the string itself for a string and null only for a null entry |
| Values.AsStored | src/Plugin.Settings/Settings.android.cs:159-178 | a stored value reads back at its own type; only a DateTime changes (to its UTC instant) |
| Values.DecimalTextNotBlank | src/Plugin.Settings/Settings.android.cs:88 | a decimal's text is never blank, so the blank check never swallows a written decimal |
| Values.IntegerTextNotBlank | src/Plugin.Settings.iOS/Settings.cs:77 | the text of a tick count is never blank |
| Values.GuidTextNotBlank | src/Plugin.Settings.iOSUnified/Settings.cs:94 | a Guid's text is never blank |
| AndroidPreferences.Encode | src/Plugin.Settings/Settings.android.cs:234-272 | the entry put for a value passed as T: bool, int, long, float and string under their native tag, a decimal as its invariant text, a DateTime as the long `-(UTC ticks)`, a Guid as its text; ArgumentException exactly when T's type code is Object or Byte and the value is not a Guid |
| AndroidPreferences.Put | src/Plugin.Settings/Settings.android.cs:226-281 | a write commits iff the encoding succeeds; it then returns true, the key holds `Encode`'s entry and every other key is kept; otherwise it throws ArgumentException before committing |
| AndroidPreferences.GetString | src/Plugin.Settings/Settings.android.cs:104 | `GetString` gives the default for an absent or null entry, the string for a string entry, and ClassCastException exactly for an entry of another type |
| AndroidPreferences.GetBoolean | src/Plugin.Settings/Settings.android.cs:98 | the same contract for `GetBoolean` and bool entries |
| AndroidPreferences.GetLong | src/Plugin.Settings/Settings.android.cs:101 | the same contract for `GetLong` and long entries |
| AndroidPreferences.GetInt | src/Plugin.Settings/Settings.android.cs:154 | the same contract for `GetInt` and int entries |
| AndroidPreferences.GetFloat | src/Plugin.Settings/Settings.android.cs:157 | the same contract for `GetFloat` and float entries |
| AndroidPreferences.Decode | src/Plugin.Settings/Settings.android.cs:97-190 | a value read is always of the requested type; an absent key gives the default for decimal, bool, long, int, float and DateTime, and `Convert.ToString(default)` for a string; a null entry gives the default for the native getters; an unsupported type with a non-Guid default is ArgumentException |
| AndroidPreferences.Migrate | src/Plugin.Settings/Settings.android.cs:73-95 | the migration always ends in an exception; it removes the key iff the default fits a long, and otherwise raises OverflowException with the key kept |
| AndroidPreferences.ReadCore | src/Plugin.Settings/Settings.android.cs:51-196 | a read removes the key only on the migration path, which always throws; any other read changes nothing and gives the type switch's value |
| AndroidPreferences.DecimalOrDefault | src/Plugin.Settings/Settings.android.cs:88-91 | a blank saved decimal yields the caller's default |
| AndroidPreferences.ResaveRejected | src/Plugin.Settings/Settings.android.cs:92-93 | the migration's re-save passes the decimal as object, which the write rejects with ArgumentException |
| AndroidPreferences.MigrationLosesValue | src/Plugin.Settings/Settings.android.cs:64-96 | a decimal read of a key holding a non-string always fails; once the default fits a long, the key has been removed first, so the old value is lost; if the default overflows a long, the key stays |
| AndroidPreferences.TicksDecodedBySign | src/Plugin.Settings/Settings.android.cs:159-178 | a stored long reads as a legacy DateTime when non-negative and as the UTC DateTime of its negation when negative |
| AndroidPreferences.UnparseableGuidReadsEmpty | src/Plugin.Settings/Settings.android.cs:179-186 | a stored string that is not a Guid reads as Guid.Empty whatever the default |
| AndroidPreferences.UnsupportedTypeRejected | src/Plugin.Settings/Settings.android.cs:187-190 | a type outside the switch, with a non-Guid default, is rejected by the decode and by the write |
| AndroidPreferences.EntryReads | src/Plugin.Settings/Settings.android.cs:51-196 | a key holding the entry the write puts for a supported value reads back at its type as the value (a DateTime as its UTC instant), and the read removes nothing |
| AndroidPreferences.PutThenRead | src/Plugin.Settings/Settings.android.cs:97-104 | every overload type written and read back at the same type gives the value (a DateTime as its UTC instant) |
| Android.ResolveScope | src/Plugin.Settings/Settings.android.cs:284-289 | a null or white-space file name is the default preferences; any other name is its own file |
| Android.Read | src/Plugin.Settings/Settings.android.cs:32-49 | without a context, or for an absent key, the caller's default, untouched |
| Android.Write | src/Plugin.Settings/Settings.android.cs:205-224 | false and no change without a context; a null value removes the key and returns true |
| Android.WriteThenRead | src/Plugin.Settings/Settings.android.cs:205-224 | a write returns true and reads back as the value through the same file and type |
| Android.WriteNullThenRead | src/Plugin.Settings/Settings.android.cs:209-213 | after a null write the key reads as the default |
| Android.UnsupportedOnlyWhenPresent | src/Plugin.Settings/Settings.android.cs:36-39 | an unsupported type fails a read iff the key is present |
| Android.Settings.GetValueOrDefault | src/Plugin.Settings/Settings.android.cs:32-196 | returns the read's result; the file loses the key exactly when the migration removed it, and nothing else changes |
| Android.Settings.AddOrUpdateValue | src/Plugin.Settings/Settings.android.cs:205-281 | returns the write's result; the resolved file becomes the written file, or nothing changes |
| Android.Settings.Remove | src/Plugin.Settings/Settings.android.cs:297-313 | with a context the key leaves the resolved file and every other file and key is kept; without one nothing changes |
| Android.Settings.Clear | src/Plugin.Settings/Settings.android.cs:319-335 | with a context the resolved file is emptied and the others kept |
| Android.Settings.Contains | src/Plugin.Settings/Settings.android.cs:343-358 | true iff there is a context and the resolved file holds the key |
| AndroidLegacy.Read | src/Plugin.Settings.Android/Settings.cs:29-47 | a null default raises ArgumentNullException before anything is read; without a context the default is returned |
| AndroidLegacy.Write | src/Plugin.Settings.Android/Settings.cs:209-223 | a null value raises ArgumentNullException; without a context the Java call fails |
| AndroidLegacy.AbsentKeyReadsDefault | src/Plugin.Settings.Android/Settings.cs:49-160 | with no presence check, an absent key still reads as the default for every overload type but Guid |
| AndroidLegacy.AbsentGuidReadsEmpty | src/Plugin.Settings.Android/Settings.cs:186-190 | an absent Guid key reads as Guid.Empty, not the caller's default |
| AndroidLegacy.UnsupportedEvenWhenAbsent | src/Plugin.Settings.Android/Settings.cs:192-195 | an unsupported type raises ArgumentException even for an absent key |
| AndroidLegacy.WriteThenRead | src/Plugin.Settings.Android/Settings.cs:225-282 | every supported write returns true and reads back as the value |
| AndroidLegacy.Settings.GetValueOrDefault | src/Plugin.Settings.Android/Settings.cs:29-201 | returns the read's result; the preferences lose the key exactly when the migration removed it |
| AndroidLegacy.Settings.AddOrUpdateValue | src/Plugin.Settings.Android/Settings.cs:209-282 | returns the write's result; the preferences become the written file, or nothing changes |
| AndroidLegacy.Settings.Remove | src/Plugin.Settings.Android/Settings.cs:289-302 | the key leaves the default preferences; nothing else changes |
| AndroidLegacy.Settings.Clear | src/Plugin.Settings.Android/Settings.cs:307-320 | the default preferences are emptied |
| AndroidLegacy.Settings.Contains | src/Plugin.Settings.Android/Settings.cs:327-336 | whether the default preferences hold the key |
| UserDefaults.ResolveSuite | src/Plugin.Settings.iOS/Settings.cs:240-243 | a null or white-space name is the standard defaults, any other name the suite of that name |
| UserDefaults.StringForKey | src/Plugin.Settings.iOS/Settings.cs:60-61 | `StringForKey` is non-null iff the key holds a string |
| UserDefaults.BoolForKey | src/Plugin.Settings.iOS/Settings.cs:45-46 | `BoolForKey` is true exactly when the key holds the bool true |
| UserDefaults.IntForKey | src/Plugin.Settings.iOS/Settings.cs:48-49 | `IntForKey` is the stored int, or 0 when the key holds no int |
| UserDefaults.FloatForKey | src/Plugin.Settings.iOS/Settings.cs:57-58 | `FloatForKey` is the stored float, or 0.0 when the key holds no float |
| IOS.Read | src/Plugin.Settings.iOS/Settings.cs:29-40 | a key holding nothing gives the default without calling the getter |
| IOS.Retrieve | src/Plugin.Settings.iOS/Settings.cs:42-88 | an `On*Retrieved` getter returns a value of its own type; bool, int, float and Guid getters never fail; the string getter returns null exactly when the entry is not a string; the decimal and long getters raise ArgumentNullException on such an entry |
| IOS.Save | src/Plugin.Settings.iOS/Settings.cs:136-161 | the `On*Saved` entry: bool, int and float natively, a string as itself, a decimal and a long as invariant text, a DateTime as the text of `-(UTC ticks)`, a Guid as its text |
| IOS.Write | src/Plugin.Settings.iOS/Settings.cs:98-107 | a null string removes the key; any other value sets the key to the entry its `On*Saved` handler stores and keeps every other key |
| IOS.WriteThenRead | src/Plugin.Settings.iOS/Settings.cs:136-161 | every overload reads back what it wrote (a DateTime as its UTC instant; a long and a decimal through their text) |
| IOS.NullStringThenRead | src/Plugin.Settings.iOS/Settings.cs:98-107 | after a null string write the key reads as the default |
| IOS.BlankDateTimeReadsMinValue | src/Plugin.Settings.iOS/Settings.cs:74-81 | a blank stored DateTime reads as DateTime.MinValue, not the caller's default |
| IOS.BadGuidReadsEmpty | src/Plugin.Settings.iOS/Settings.cs:63-72 | a blank or unparseable Guid text reads as Guid.Empty |
| IOS.NonStringNumberThrows | src/Plugin.Settings.iOS/Settings.cs:42-52 | a decimal or long read of a non-string hands null to the parser, which raises ArgumentNullException |
| IOS.Settings.GetValueOrDefault | src/Plugin.Settings.iOS/Settings.cs:29-88 | returns the read of the resolved defaults |
| IOS.Settings.AddOrUpdateValue | src/Plugin.Settings.iOS/Settings.cs:117-134 | always true; the resolved defaults become the written defaults |
| IOS.Settings.Remove | src/Plugin.Settings.iOS/Settings.cs:168-186 | the key is removed only when present; other keys and suites are kept |
| IOS.Settings.Clear | src/Plugin.Settings.iOS/Settings.cs:192-213 | a loop removes every key of the resolved defaults one at a time; other suites are kept |
| IOS.Settings.Contains | src/Plugin.Settings.iOS/Settings.cs:221-238 | whether the resolved defaults hold the key |
| IOSUnified.Read | src/Plugin.Settings.iOSUnified/Settings.cs:25-32 | a key holding nothing gives the default before any type check |
| IOSUnified.Decode | src/Plugin.Settings.iOSUnified/Settings.cs:34-112 | a value read is of the requested type; decimal and long reads of a non-string entry give a value (`Convert` of null), a string read of one gives the default; bool, int and float reads never fail; an unsupported type with a non-Guid default is ArgumentException |
| IOSUnified.Encode | src/Plugin.Settings.iOSUnified/Settings.cs:136-182 | the entry set for a value passed as T: bool, int and float natively, a decimal and a long as invariant text, a string as itself and null as "", a DateTime as the text of `-(UTC ticks)`, a Guid as its text; ArgumentException exactly when T's type code is Object or Byte and the value is not a Guid |
| IOSUnified.Written | src/Plugin.Settings.iOSUnified/Settings.cs:136-182 | a successful write sets the key to `Encode`'s entry and keeps every other key |
| IOSUnified.NumberTextReads | src/Plugin.Settings.iOSUnified/Settings.cs:43-52 | a key holding the invariant text of a decimal or long reads back as that number |
| IOSUnified.TicksTextReads | src/Plugin.Settings.iOSUnified/Settings.cs:66-87 | a key holding the tick text of a DateTime reads back as its stored instant |
| IOSUnified.GuidTextReads | src/Plugin.Settings.iOSUnified/Settings.cs:88-103 | a key holding the text of a Guid reads back as that Guid |
| IOSUnified.WriteThenRead | src/Plugin.Settings.iOSUnified/Settings.cs:41-87 | every overload type reads back what was written (a DateTime as its UTC instant) |
| IOSUnified.NullStringReadsEmpty | src/Plugin.Settings.iOSUnified/Settings.cs:155-156 | a null string is stored as "" (no redirect to Remove) and reads back as "" |
| IOSUnified.NullObjectRejected | src/Plugin.Settings.iOSUnified/Settings.cs:167-179 | a null passed as object is not a Guid and is rejected |
| IOSUnified.BlankDateTimeReadsDefault | src/Plugin.Settings.iOSUnified/Settings.cs:67-72 | a blank stored DateTime reads as the caller's default |
| IOSUnified.NonStringNumberReadsZero | src/Plugin.Settings.iOSUnified/Settings.cs:43-53 | a decimal or long read of a non-string converts null, which gives 0 |
| IOSUnified.BadGuidReadsEmpty | src/Plugin.Settings.iOSUnified/Settings.cs:88-103 | a blank or unparseable Guid text reads as Guid.Empty |
| IOSUnified.UnsupportedType | src/Plugin.Settings.iOSUnified/Settings.cs:104-107 | an unsupported type reads as the default while absent, is rejected once present, and is rejected on write |
| IOSUnified.Settings.GetValueOrDefault | src/Plugin.Settings.iOSUnified/Settings.cs:25-115 | returns the read of the resolved defaults |
| IOSUnified.Settings.AddOrUpdateValue | src/Plugin.Settings.iOSUnified/Settings.cs:124-193 | true with the entry set, or the ArgumentException with nothing set |
| IOSUnified.Settings.Remove | src/Plugin.Settings.iOSUnified/Settings.cs:200-218 | the key is removed only when present |
| IOSUnified.Settings.Clear | src/Plugin.Settings.iOSUnified/Settings.cs:224-246 | a loop removes every key of the resolved defaults; other suites are kept |
| IOSUnified.Settings.Contains | src/Plugin.Settings.iOSUnified/Settings.cs:255-272 | whether the resolved defaults hold the key |
| ApplicationData.ResolveContainer | src/Plugin.Settings.UWP/Settings.cs:13-22 | a null or white-space name is LocalSettings, any other name its own container |
| ApplicationData.Opened | src/Plugin.Settings.UWP/Settings.cs:17-18 | `GetAppSettings` creates a missing named container, empty; every existing container is kept as it was |
| ApplicationData.ObjectText | src/Plugin.Settings.UWP/Settings.cs:46 | `Convert.ToString` of a stored entry: the string itself, and "" for a null entry |
| ApplicationData.Unbox | src/Plugin.Settings.UWP/Settings.cs:96-97 | the cast `(T)tempValue` succeeds iff T is object or the entry's own type, otherwise InvalidCastException |
| ApplicationData.Read | src/Plugin.Settings.UWP/Settings.cs:34-109 | a value read is of the requested type; a decimal read of a present key succeeds iff its text parses; a DateTime read of an absent or blank entry gives the default and otherwise succeeds iff the tick text decodes; any other type gives the default for an absent or null entry, else the cast, which succeeds iff T is object or the boxed type and otherwise raises InvalidCastException |
| ApplicationData.Box | src/Plugin.Settings.UWP/Settings.cs:136-143 | a decimal is stored as its invariant text and a DateTime as the text of `-(UTC ticks)`; bool, int, long, float, string, Guid and byte are boxed as they are; never null |
| ApplicationData.Put | src/Plugin.Settings.UWP/Settings.cs:146-167 | the entry afterwards is always the new value; a new key reports a change; an unchanged reference reports none |
| Uwp.Write | src/Plugin.Settings.UWP/Settings.cs:118-168 | a null value removes the key and reports a change; any other value goes through the change detection with its boxed form |
| ApplicationData.BoxThenRead | src/Plugin.Settings.UWP/Settings.cs:34-109 | a stored value reads back at its own type as the value (a DateTime as its UTC instant) |
| ApplicationData.AbsentDecimalReadsDefault | src/Plugin.Settings.UWP/Settings.cs:49-56 | an absent decimal reads as the default, scale included |
| ApplicationData.BlankDateTimeReadsDefault | src/Plugin.Settings.UWP/Settings.cs:61-73 | an absent or blank DateTime reads as the default |
| ApplicationData.CastReadsEntry | src/Plugin.Settings.UWP/Settings.cs:92-108 | another type reads as the default when absent or null, and fails the cast on an entry of another type |
| Uwp.WriteThenRead | src/Plugin.Settings.UWP/Settings.cs:118-168 | a write then a read at the same type gives the value, or the default after a null removed the key |
| Uwp.ChangeReported | src/Plugin.Settings.UWP/Settings.cs:118-167 | a new key or a null write reports a change; the same reference reports none and changes nothing |
| Uwp.Settings.GetAppSettings | src/Plugin.Settings.UWP/Settings.cs:13-22 | resolves the container, creating a missing named one; its values are unchanged |
| Uwp.Settings.GetValueOrDefault | src/Plugin.Settings.UWP/Settings.cs:34-109 | returns the read of the resolved container; only the container creation changes the state |
| Uwp.Settings.AddOrUpdateValue | src/Plugin.Settings.UWP/Settings.cs:118-168 | returns the change flag; a null removes the key, any other value is stored boxed |
| Uwp.Settings.Remove | src/Plugin.Settings.UWP/Settings.cs:175-186 | the key is removed only when present |
| Uwp.Settings.Clear | src/Plugin.Settings.UWP/Settings.cs:192-206 | the resolved container is emptied; the others are kept |
| Uwp.Settings.Contains | src/Plugin.Settings.UWP/Settings.cs:214-230 | whether the resolved container holds the key |
| WindowsPhone81.BoxOrNull | src/Plugin.Settings.WindowsPhone81/Settings.cs:140-161 | the stored object is a null reference exactly for a null value |
| WindowsPhone81.Write | src/Plugin.Settings.WindowsPhone81/Settings.cs:124-162 | the write fails, with the store's exception, exactly for a value the store cannot hold; otherwise the entry becomes the boxed value (null for null) and the result is the change detection's |
| WindowsPhone81.WriteThenRead | src/Plugin.Settings.WindowsPhone81/Settings.cs:124-162 | a non-null write reads back at its own type as the value |
| WindowsPhone81.NullWriteThenRead | src/Plugin.Settings.WindowsPhone81/Settings.cs:118-121 | a null write leaves a null entry: the key stays present, a decimal read fails on "", other reads give the default |
| WindowsPhone81.NullOverNull | src/Plugin.Settings.WindowsPhone81/Settings.cs:144-151 | null over a null entry reports no change; null over a value reports one |
| WindowsPhone81.DecimalAsObjectReadsText | src/Plugin.Settings.WindowsPhone81/Settings.cs:130-133 | a decimal written as object is stored as its text and reads back as object as that string |
| WindowsPhone81.Settings.GetAppSettings | src/Plugin.Settings.WindowsPhone81/Settings.cs:13-22 | resolves the container, creating a missing named one |
| WindowsPhone81.Settings.GetValueOrDefault | src/Plugin.Settings.WindowsPhone81/Settings.cs:34-109 | returns the read of the resolved container for any T |
| WindowsPhone81.Settings.AddOrUpdateValue | src/Plugin.Settings.WindowsPhone81/Settings.cs:118-162 | returns the change flag or the store's exception; the container becomes the written one, or is unchanged |
| WindowsPhone81.Settings.Remove | src/Plugin.Settings.WindowsPhone81/Settings.cs:169-180 | the key is removed only when present |
| WindowsPhone81.Settings.Clear | src/Plugin.Settings.WindowsPhone81/Settings.cs:186-200 | the resolved container is emptied |
| WindowsPhone81.Settings.Contains | src/Plugin.Settings.WindowsPhone81/Settings.cs:208-224 | whether the resolved container holds the key, a null entry included |
| Net45.Text | src/Plugin.Settings.Net45/Settings.cs:59-68 | the text written for a value: a decimal as its invariant text, a DateTime as the text of `-(UTC ticks)`, a long or int as its digits, a bool as "True"/"False", a Guid as its hyphenated text, a string as itself |
| Net45.Write | src/Plugin.Settings.Net45/Settings.cs:27-96 | null deletes the file and returns true; an unsupported type raises ArgumentException; otherwise the file holds the new text and the result is whether the old contents differed |
| Net45.Read | src/Plugin.Settings.Net45/Settings.cs:106-212 | no file gives the default; a value read is of the requested type; a string read gives the file's text; a Guid read gives the parsed Guid or, for text that is not a Guid, the default; a type outside the switch raises ArgumentException |
| Net45.ReadText | src/Plugin.Settings.Net45/Settings.cs:135-203 | a file holding a value's text reads back at the value's type as the value, assuming the host's Single text parses back to the same Single (`SingleTextRoundTrips`) |
| Net45.WriteThenRead | src/Plugin.Settings.Net45/Settings.cs:27-212 | a write then a read at the same type gives the value, or the default after a null write, assuming the host's Single text parses back to the same Single (`SingleTextRoundTrips`) |
| Net45.RewriteUnchanged | src/Plugin.Settings.Net45/Settings.cs:70-91 | writing the same value twice returns false the second time |
| Net45.UnparseableGuidReadsDefault | src/Plugin.Settings.Net45/Settings.cs:179-183 | text that is not a Guid reads as the caller's default, not as Guid.Empty |
| Net45.OverloadsSupported | src/Plugin.Settings.Net45/Settings.cs:44-53 | no typed overload reaches either ArgumentException |
| Net45.UnsupportedTypeRejected | src/Plugin.Settings.Net45/Settings.cs:205-208 | an unsupported read type raises ArgumentException only when the file exists |
| Net45.Settings.GetValueOrDefault | src/Plugin.Settings.Net45/Settings.cs:106-212 | returns the read of the key's file; the file name plays no part |
| Net45.Settings.AddOrUpdateValue | src/Plugin.Settings.Net45/Settings.cs:27-96 | returns the write's change flag and the files become the written ones; the file name plays no part |
| Net45.Settings.Remove | src/Plugin.Settings.Net45/Settings.cs:219-223 | the key's file is deleted |
| Net45.Settings.Clear | src/Plugin.Settings.Net45/Settings.cs:229-242 | a loop deletes every file of the store, whatever the file name |
| Net45.Settings.Contains | src/Plugin.Settings.Net45/Settings.cs:250 | whether the key's file exists |
| Tizen.FullPrefKey | src/Plugin.Settings.Tizen/Settings.cs:235-242 | an empty file name gives the key itself, otherwise the key prefixed by `fileName + "_"` |
| Tizen.StringEntry | src/Plugin.Settings.Tizen/Settings.cs:145 | `Preference.Get<string>` succeeds iff the entry is a string |
| Tizen.BoolEntry | src/Plugin.Settings.Tizen/Settings.cs:149 | `Preference.Get<bool>` succeeds iff the entry is a bool |
| Tizen.IntEntry | src/Plugin.Settings.Tizen/Settings.cs:162 | `Preference.Get<int>` succeeds iff the entry is an int |
| Tizen.Write | src/Plugin.Settings.Tizen/Settings.cs:26-83 | the write as written: a decimal, long and Single under the preference key as invariant text, a string as itself (null as ""), a bool and an int natively; a DateTime and a Guid put the preference key under their own text; ArgumentException exactly when T's type code is Object or Byte and the value is not a Guid |
| Tizen.Read | src/Plugin.Settings.Tizen/Settings.cs:127-214 | an absent preference gives the default; a value read is of the requested type; bool, int and string reads succeed iff the entry has that type; an unsupported type with a non-Guid default is ArgumentException |
| Tizen.Cleared | src/Plugin.Settings.Tizen/Settings.cs:89-103 | what Clear leaves: nothing without a file name, otherwise exactly the keys that do not start with `fileName + "_"`, with their values |
| Tizen.TextEntryReads | src/Plugin.Settings.Tizen/Settings.cs:144-166 | a preference holding the invariant text of a decimal, long, Single or string reads back at that type as the value, assuming the host's Single text parses back to the same Single (`SingleTextRoundTrips`) |
| Tizen.TicksEntryReads | src/Plugin.Settings.Tizen/Settings.cs:169-187 | a preference holding the tick text of a DateTime reads back as its stored instant |
| Tizen.GuidEntryReads | src/Plugin.Settings.Tizen/Settings.cs:188-204 | a preference holding the text of a Guid reads back as that Guid |
| Tizen.WriteThenRead | src/Plugin.Settings.Tizen/Settings.cs:43-63 | decimal, bool, long, string, int and Single writes read back as the value (a null string as ""), assuming the host's Single text parses back to the same Single (`SingleTextRoundTrips`) |
| Tizen.DateTimeWriteLost | src/Plugin.Settings.Tizen/Settings.cs:64-66 | a DateTime write leaves the preference key absent, so it reads as the default, and stores the key under the tick text |
| Tizen.GuidWriteLost | src/Plugin.Settings.Tizen/Settings.cs:68-74 | the same for a Guid |
| Tizen.IntendedWrite | src/Plugin.Settings.Tizen/Settings.cs:64-74 | the write with the `Set` arguments in order; it fails exactly where the write as written does |
| Tizen.IntendedWriteThenRead | src/Plugin.Settings.Tizen/Settings.cs:127-217 | with the intended write every overload type, DateTime and Guid included, reads back as the value, assuming the host's Single text parses back to the same Single (`SingleTextRoundTrips`) |
| Tizen.UnsupportedTypeRejected | src/Plugin.Settings.Tizen/Settings.cs:206-209 | an unsupported type with a non-Guid default is rejected iff the key is present |
| Tizen.PrefixedKeysCollide | src/Plugin.Settings.Tizen/Settings.cs:241 | two different (file name, key) pairs can name the same preference |
| Tizen.ClearRemovesFile | src/Plugin.Settings.Tizen/Settings.cs:93-101 | Clear removes the file's keys, those of longer file names and unscoped keys sharing the prefix, and keeps every key without it; without a file name it removes everything |
| Tizen.BlankOrBadTextReads | src/Plugin.Settings.Tizen/Settings.cs:169-205 | a blank DateTime text reads as the default; a blank or unparseable Guid text as Guid.Empty |
| Tizen.Settings.AddOrUpdateValue | src/Plugin.Settings.Tizen/Settings.cs:26-83 | true with the preferences written, or the ArgumentException with nothing set |
| Tizen.Settings.GetValueOrDefault | src/Plugin.Settings.Tizen/Settings.cs:127-217 | returns the read of the prefixed key |
| Tizen.Settings.Remove | src/Plugin.Settings.Tizen/Settings.cs:224-234 | the prefixed key is removed |
| Tizen.Settings.Clear | src/Plugin.Settings.Tizen/Settings.cs:89-103 | a loop removes every key that carries the prefix, or everything without a file name |
| Tizen.Settings.Contains | src/Plugin.Settings.Tizen/Settings.cs:111-117 | whether the prefixed key is present |

## Findings

| source | as written | input that shows it | evidently intended | confidence | as-written member | corrected member |
|---|---|---|---|---|---|---|
| src/Plugin.Settings.Tizen/Settings.cs:64-66 | `Preference.Set(ticksText, prefKey)` | `AddOrUpdateValue("k", someDateTime)` then `GetValueOrDefault("k", d)`: returns `d`, and `Contains("k")` stays false | `Preference.Set(prefKey, ticksText)` | high, not executed | Tizen.Write, Tizen.DateTimeWriteLost | Tizen.IntendedWrite, Tizen.IntendedWriteThenRead |
| src/Plugin.Settings.Tizen/Settings.cs:68-74 | `Preference.Set(guidText, prefKey)` | `AddOrUpdateValue("k", someGuid)` then `GetValueOrDefault("k", g)`: returns `g` | `Preference.Set(prefKey, guidText)` | high, not executed | Tizen.Write, Tizen.GuidWriteLost | Tizen.IntendedWrite, Tizen.IntendedWriteThenRead |

`Tizen.Settings` keeps the write as written, so that its contracts describe what the adapter does. The
corrected write is proved on its own.

## Left out

- Double: every `double` branch, overload and migration path is floating point and is not modelled.
- Single: it is an opaque bit pattern. Its text and parser come from the `Host` parameter. The Single
  round trips rest on the host's text parsing back (`SingleTextRoundTrips`). That assumption does not
  hold on every runtime these adapters target: .NET Framework and .NET Core before 3.0 write a `float`
  with 7 significant digits, so `AddOrUpdateValue("k", 1.0000001f)` stores "1" and reads back as 1f.
  On those runtimes Net45 and Tizen, which store a Single as text, do not round-trip every Single.
- Net45.ReadText, Net45.WriteThenRead: the Single case holds only under `SingleTextRoundTrips`.
- Tizen.TextEntryReads, Tizen.WriteThenRead, Tizen.IntendedWriteThenRead: the Single case holds only
  under `SingleTextRoundTrips`.
- Nullable value types: `Nullable<T>` unwrapping is not modelled. Null is admitted only for string, object
  and class types.
- Culture: every `ToString`, `Convert.ToString` and `StartsWith` is modelled in the invariant culture with
  ordinal comparison, including the calls that use the current culture.
- `ToUniversalTime`: it depends on the machine's time zone, so it is the `Zone` function supplied with the
  `Host`.
- Parsers: the decimal, integer and Guid parsers accept the canonical forms only. Leading and trailing
  white space, thousands separators, exponents and the other `Guid.TryParse` formats are not modelled;
  only the round trips of the written forms are proved.
- NSUserDefaults coercions: a typed getter on an entry of another type returns the zero value. Foundation's
  conversions between numbers and strings are not modelled.
- NSUserDefaults keys: every key is an NSString, so the non-NSString keys that `Clear` skips do not exist
  in the model.
- SharedPreferences type mismatches: a typed getter on an entry of another type raises
  ClassCastException, as the source's catches expect. Tizen `Preference.Get<T>` on an entry of another
  type fails with `NativeStoreFailure`.
- Persistence: `Commit`, `Synchronize`, file streams and the isolated store are the in-memory maps. The
  errors these calls swallow are not modelled.
- Net45: each key is an isolated-storage file name (src/Plugin.Settings.Net45/Settings.cs:72-89,
  114-123, 221-222, 250), and the model keys the store by the exact string. On Windows file names
  compare case-insensitively, so in the source `AddOrUpdateValue("a", 1)` then `AddOrUpdateValue("A", 2)`
  makes `GetValueOrDefault("a", 0)` return 2, where the model returns 1. A key that is not a valid file
  name (empty, or holding a path separator, `:`, `*` or `?`) makes `OpenFile` throw out of the write; the
  model lets every write of a supported value succeed. File-name folding and validation belong to the
  file system, not to the adapter, and are not modelled.
- `OpenAppSettings`: UI intents and URL opening, not store logic.
- The `CrossSettings` singletons and the `SettingsAutoKeyExtensions` forwarders: not part of the store.
- Locks and logging: the `locker` mutexes and console output are not modelled, so calls are sequential.
- AndroidLegacy.Settings.Contains: without an application context the Java call on a null context is
  modelled as a NullPointerException result. The same holds for `Remove`, `Clear` and the write.
- Uwp.Settings.AddOrUpdateValue: the `Values[key] != value` reference comparison is the caller-supplied
  flag `differs`. The only constraint is what references guarantee (`ReferenceOracle`), so the model does
  not decide whether two boxes of equal values are the same reference.
- WindowsPhone81.Settings.AddOrUpdateValue: the same `differs` flag. A null value is stored as a null entry,
  and a class instance is refused by the store with `NativeStoreFailure`.
- IOSUnified: its `GetUserDefaults` (src/Plugin.Settings.iOSUnified/Settings.cs:274-277) is the same
  resolution as the iOS one and is modelled once, by `UserDefaults.ResolveSuite`.
