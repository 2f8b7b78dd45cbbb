# CentralConfig client core, modelled in Dafny

This project models the decision logic of the .NET client for the
CentralConfig configuration and feature-flag service. That logic lives in
`CentralConfigManager` and `ConfigItem`:

- **Typed, fail-soft lookup.** `Get<T>(application, name, default)` fetches one
  configuration value through `config/get` and converts it to `T`. An
  enumeration is matched by member name ignoring case; any other type goes
  through `Convert.ChangeType`. Every failure yields the caller's default.
- **The guards around the lookup.** `Get(name)` and `Get<T>(name, …)` reject an
  application equal to `""`. `FeatureEnabled(name)` rejects that and then a
  blank flag name, before any request is sent.
- **The lazily filled `HostName`.** It is filled with the machine name when the
  stored name is blank.
- **The constructors' field defaults.**
- **`ConfigItem.LastUpdated`.** It parses the raw `updated` string in the one
  fixed format `yyyy-MM-dd'T'HH:mm:ss'Z'` as UTC, and falls back to
  `DateTime.MinValue`.

Files and modules:

| file | module | what it holds |
|---|---|---|
| `wrappers.dfy` | `Wrappers` | `Option` for null references, `Result` for thrown exceptions |
| `runtime.dfy` | `Runtime` | nullable strings, `Char.IsWhiteSpace`, `Trim`, `IsNullOrEmpty`, `IsNullOrWhiteSpace`, `??`, ordinal ignore-case comparison, exceptions |
| `datetimes.dfy` | `DateTimes` | `DateTime` components, Gregorian calendar validity, ticks, `MinValue` |
| `config_item.dfy` | `ConfigItems` | the `ConfigItem` record and the `LastUpdated` parser, with its inverse `Format` |
| `config_response.dfy` | `ConfigResponses` | the `{status, message, data}` envelope |
| `coercion.dfy` | `Coercion` | the body of `Get<T>(application, name, default)`: value extraction, enum parsing, conversion, fallback |
| `manager.dfy` | `CentralConfig` | the `CentralConfigManager` class, the service endpoint with its request log, and the flag library |

How the environment is modelled:

- **Null references.** A .NET `string` is `Option<string>`, where `None` is null.
  A thrown exception is `Result.Failure`.
- **The `config/get` endpoint.** It is a `RemoteService` object. It answers each
  request body with a fixed function `answer` and logs every body it
  receives. This lets the contracts say when no request is sent and what a
  request carries.
- **`Environment.MachineName`.** It is a constant field of the manager, supplied
  at construction.
- **The feature-flag library.** `ToFeatureFlag` and `Feature.IsEnabled` are
  uninterpreted functions passed in as a `FlagLibrary` value.
- **`Convert.ChangeType`.** It is an uninterpreted partial function carried by
  the target-type descriptor. For `string` it is the identity.

Two behaviours of the code are worth knowing. In both, the model does what
the code does:

- **The application guard.** It compares `Application` only with
  `string.Empty`. A null application, which the one-argument constructor
  leaves, is therefore not rejected, even though it means "not set". It is
  sent to the service as it is. This is `CentralConfig.ApplicationNotSet`.
- **Accepted timestamps.** `LastUpdated` accepts the one fixed format only.
  Fractional seconds, offsets and any other spelling give `MinValue`. See
  `ConfigItems.LastUpdatedExamples`.

## Model

| member | source | states |
|---|---|---|
| `Runtime.Trim` | CentralConfigClient/CentralConfigManager.cs:42 | a trimmed string that is not empty begins and ends with a character that is not white space |
| `Runtime.TrimEmptyIffBlank` | CentralConfigClient/CentralConfigManager.cs:42 | `Trim() == ""` holds exactly when every character is white space, so the `HostName` test and `IsNullOrWhiteSpace` agree on non-null strings |
| `Runtime.IsNullOrWhiteSpace` | CentralConfigClient/CentralConfigManager.cs:262 | a flag name is rejected as blank exactly when it is null or trims to `""` |
| `DateTimes.TicksAtLeastMinValue` | CentralConfigClient/Models/ConfigItem.cs:58 | every representable date and time has ticks ≥ those of `MinValue` (0); only 0001-01-01 00:00:00 has exactly 0 |
| `DateTimes.TicksChronological` | CentralConfigClient/Models/ConfigItem.cs:63-67 | ticks follow calendar order: an earlier date and time has strictly fewer ticks |
| `DateTimes.SameInstantIffSameFields` | CentralConfigClient/Models/ConfigItem.cs:63-67 | two representable values are the same instant exactly when all six calendar fields agree |
| `ConfigItems.ParseExact` | CentralConfigClient/Models/ConfigItem.cs:63-67 | a successful parse is a valid calendar date and time of kind UTC |
| `ConfigItems.LastUpdatedOf` | CentralConfigClient/Models/ConfigItem.cs:54-73 | the getter always yields a valid calendar value: `MinValue` for a null raw value, and anything other than `MinValue` is UTC. `LastUpdatedCanonicalOrMinValue`, `MalformedIsMinValue` and `OutOfRangeIsMinValue` say exactly when the sentinel comes back |
| `ConfigItems.LastUpdated` | CentralConfigClient/Models/ConfigItem.cs:54-73 | `item.LastUpdated` is a valid calendar value, `MinValue` when `LastUpdatedRaw` is null, and UTC whenever it is not `MinValue` |
| `ConfigItems.ParseExactFormat` | CentralConfigClient/Models/ConfigItem.cs:63-67 | every valid UTC time written in the format parses back to itself |
| `ConfigItems.FormatParseExact` | CentralConfigClient/Models/ConfigItem.cs:63-67 | whatever the parser accepts is exactly the formatting of its result: no other spelling is accepted |
| `ConfigItems.LastUpdatedOfCanonical` | CentralConfigClient/Models/ConfigItem.cs:63-67 | a raw value of the exact form denoting a valid date and time yields that instant, as UTC |
| `ConfigItems.LastUpdatedCanonicalOrMinValue` | CentralConfigClient/Models/ConfigItem.cs:58-71 | the result is `MinValue` exactly when the raw value is null or does not parse; any other result is UTC and its canonical text is the raw value |
| `ConfigItems.MalformedIsMinValue` | CentralConfigClient/Models/ConfigItem.cs:58-69 | null, a wrong length (fractional seconds, missing `Z`), a wrong separator or a non-digit yield `MinValue` |
| `ConfigItems.OutOfRangeIsMinValue` | CentralConfigClient/Models/ConfigItem.cs:63-69 | well-shaped text with a month, day (including 29 February of a common year), hour, minute, second or year out of range yields `MinValue` |
| `ConfigItems.LastUpdatedExamples` | CentralConfigClient/Models/ConfigItem.cs:63-67 | worked cases: an ordinary time and a leap day parse; 29 February 2021, fractional seconds, a missing `Z` and `""` do not |
| `ConfigItems.LastUpdatedDependsOnlyOnRaw` | CentralConfigClient/Models/ConfigItem.cs:50-73 | `LastUpdated` is a function of `LastUpdatedRaw` alone |
| `ConfigItems.LastUpdatedNotBeforeMinValue` | CentralConfigClient/Models/ConfigItem.cs:58-67 | every result is at or after `MinValue`; it equals `MinValue` as an instant only as the sentinel or for the raw value `0001-01-01T00:00:00Z` |
| `ConfigItems.SentinelCollision` | CentralConfigClient/Models/ConfigItem.cs:58-67 | `0001-01-01T00:00:00Z` parses, yet the result compares equal to the `MinValue` sentinel |
| `ConfigItems.TryLastUpdated` | CentralConfigClient/Models/ConfigItem.cs:54-73 | the optional timestamp is `None` exactly where `LastUpdated` gives the sentinel, and otherwise the parsed instant |
| `ConfigItems.TryLastUpdatedSeparatesMinValue` | CentralConfigClient/Models/ConfigItem.cs:58-67 | with the optional result, the earliest real timestamp and a failed parse differ |
| `Coercion.StoredValue` | CentralConfigClient/CentralConfigManager.cs:296 | `.Result.Data.Value` can be read exactly when the call succeeded with a non-null envelope whose `Data` is not null; it is then that item's `Value`, possibly null |
| `Coercion.FindMember` | CentralConfigClient/CentralConfigManager.cs:307 | the result is the first member whose name equals the key ignoring case; it is absent exactly when no member matches |
| `Coercion.FindMemberIgnoresCase` | CentralConfigClient/CentralConfigManager.cs:307 | keys equal up to case find the same member |
| `Coercion.EnumParse` | CentralConfigClient/CentralConfigManager.cs:304-307 | enum parsing fails exactly when the trimmed text is blank, or is neither a number nor a member name ignoring case; a success is the numeric value or a matching member |
| `Coercion.EnumByName` | CentralConfigClient/CentralConfigManager.cs:304-307 | for an enum and a plain name, the result is the first member matching it ignoring case, or the default when none does |
| `Coercion.Convert` | CentralConfigClient/CentralConfigManager.cs:301-313 | a non-enum target gets the stored string unchanged from `ChangeType`; an enum target fails on text that is only white space |
| `Coercion.Converted` | CentralConfigClient/CentralConfigManager.cs:293-316 | a value is produced exactly when the call returned an item whose value is a non-empty string that converts; it is that conversion |
| `Coercion.TypedGet` | CentralConfigClient/CentralConfigManager.cs:287-320 | the result is the default or the try block's conversion; a null or empty name gives the default; a conversion that succeeds for a non-empty name is the result. `FailureYieldsDefault` and `NonDefaultMeansConverted` state the two directions case by case |
| `Coercion.EmptyNameYieldsDefault` | CentralConfigClient/CentralConfigManager.cs:289-291 | a null or empty name yields the default, whatever the service holds |
| `Coercion.NonDefaultMeansConverted` | CentralConfigClient/CentralConfigManager.cs:289-319 | a result other than the default implies a non-empty name, a successful call and a non-empty value that converts to the result |
| `Coercion.FailureYieldsDefault` | CentralConfigClient/CentralConfigManager.cs:293-316 | a failed call, a null envelope, a null `Data`, a null or empty value, or a failed conversion yields the default |
| `Coercion.ConversionIsResult` | CentralConfigClient/CentralConfigManager.cs:309-313 | a non-empty value that converts yields its conversion |
| `Coercion.StringGetPassesValue` | CentralConfigClient/CentralConfigManager.cs:296-313 | `Get<string>` with a null default returns the stored value when it is a non-empty string and null otherwise |
| `CentralConfig.ApplicationNotSet` | CentralConfigClient/CentralConfigManager.cs:193-196 | the guard fires only for a null-or-empty application, and never for a null one, as the `== string.Empty` test does |
| `CentralConfig.HostNameRead` | CentralConfigClient/CentralConfigManager.cs:42-48 | reading `HostName` throws exactly when the field is null; otherwise it returns the machine name, or the stored name when that is not all white space |
| `CentralConfig.HostNameStored` | CentralConfigClient/CentralConfigManager.cs:42-46 | a read leaves a null field null and a non-blank field as it is, and replaces a blank field with the machine name |
| `CentralConfig.HostNameStable` | CentralConfigClient/CentralConfigManager.cs:38-50 | a second read of `HostName` returns the same value and leaves the field unchanged |
| `CentralConfig.HostNameNotBlank` | CentralConfigClient/CentralConfigManager.cs:42-48 | `HostName` returns the machine name or a stored name that is not all white space, and stores what it returns |
| `CentralConfig.LookupRequest` | CentralConfigClient/CentralConfigManager.cs:214-219 | the posted `ConfigItem` carries the name, the application and the host name as `Machine`; every other field is as in `new ConfigItem()` |
| `CentralConfig.RequestsSent` | CentralConfigClient/CentralConfigManager.cs:210-222 | one `Get(application, name)` sends no request when reading the host name throws (a null stored name), and otherwise exactly one, carrying the given name, the given application and `Machine = HostName`, every other field at its default |
| `CentralConfig.Fetch` | CentralConfigClient/CentralConfigManager.cs:208-225 | when no request is sent, the result is the host-name read's `NullReferenceException`; otherwise it is the service's answer to the one request sent |
| `CentralConfig.RemoteService.ConfigGet` | CentralConfigClient/CentralConfigManager.cs:222 | one call logs its body and returns the service's answer to it |
| `CentralConfig.CentralConfigManager.constructor` | CentralConfigClient/CentralConfigManager.cs:90-99 | user and group are `""`, both flags false, application and URL null, host name `""` |
| `CentralConfig.CentralConfigManager.ForApplication` | CentralConfigClient/CentralConfigManager.cs:107-111 | as above, plus the given application and stored host name |
| `CentralConfig.CentralConfigManager.ForFeatureFlags` | CentralConfigClient/CentralConfigManager.cs:123-129 | as above, with the given user, group, admin and internal flags |
| `CentralConfig.CentralConfigManager.HostName` | CentralConfigClient/CentralConfigManager.cs:38-50 | a blank stored name is replaced by the machine name and returned; any other is returned unchanged; a null one throws |
| `CentralConfig.CentralConfigManager.GetItem` | CentralConfigClient/CentralConfigManager.cs:208-225 | fills the host name, sends the lookup request and returns the answer unmodified |
| `CentralConfig.CentralConfigManager.GetItemByName` | CentralConfigClient/CentralConfigManager.cs:190-200 | throws exactly when the application is `""`, with no request; otherwise it is `Get(Application, name)` |
| `CentralConfig.CentralConfigManager.GetValue` | CentralConfigClient/CentralConfigManager.cs:287-320 | never throws; its result is the fail-soft conversion of the answer; a null or empty name sends no request |
| `CentralConfig.CentralConfigManager.GetValueByName` | CentralConfigClient/CentralConfigManager.cs:234-244 | throws exactly when the application is `""`, with no request; otherwise it is `Get<T>(Application, name, default)` |
| `CentralConfig.CentralConfigManager.FeatureEnabled` | CentralConfigClient/CentralConfigManager.cs:251-277 | checks the application first, then a blank name, each throwing before any request; otherwise it returns `IsEnabled(ToFeatureFlag(Get<string>(name)), User ?? "", Group ?? "", Url ?? "", IsInternalUser, IsAdminUser)` |

## Findings

| source | as written | input that shows it | evidently intended | confidence | as-written member | corrected member |
|---|---|---|---|---|---|---|
| CentralConfigClient/Models/ConfigItem.cs:58-67 | `DateTime.MinValue` is both the "no timestamp" sentinel and the parse of a valid timestamp (`==` on `DateTime` compares ticks only) | `LastUpdatedRaw = "0001-01-01T00:00:00Z"` | an unparsable value can be told apart from every real timestamp | high that the collision exists; not executed | `ConfigItems.SentinelCollision` | `ConfigItems.TryLastUpdated` |

`ConfigItems.LastUpdatedOf` keeps the getter exactly as written, because it is
the modelled behaviour. `ConfigItems.TryLastUpdated` is the corrected form: it
returns `None` on failure.

## Left out

- `MakeAPICall`, `HttpClient`, `async`/`Task` and `.Result` blocking are not modelled.
  They are network I/O. A call is one deterministic `answer` from the service
  object, and a failed task is a `Failure`. `AggregateException` wrapping is not
  distinguished, because `Get<T>` swallows every exception anyway.
- `DeserializeObject` and `ToJSON` are not modelled; they call a foreign JSON
  serialiser. A body that deserialises to null is the `Success(None)` envelope.
- `GetAllApplications`, `GetAll`, `GetAll(application)`, `Set` and `Remove` are not
  modelled. They only build a URL and pass the service's envelope through.
- The constructors do not model `new Uri(serverUrl)` validation or
  `AbsoluteUri` normalisation. `baseServiceUrl` is `serverUrl` as given.
- `FeatureFlags.Library` is left uninterpreted. Its `ToFeatureFlag` and
  `Feature.IsEnabled` are not visible. So "a malformed or missing definition
  means disabled" cannot be stated here. The model states only what definition
  string (null on every failure) and context reach the library.
- `Convert.ChangeType` is an uninterpreted partial function per target type,
  except `string`, where it is the identity.
- `Coercion.EnumParse` does not model comma-separated lists of member names.
  `Enum.Parse` combines those, and the model returns the default for them.
  The numeric check recognises ASCII digits only. The case-insensitive
  comparison folds ASCII letters only.
- `Environment.MachineName` is a constant supplied to the constructors.
- The auto-property setters of `Application`, `User`, `Group`, `Url`,
  `IsAdminUser` and `IsInternalUser` are plain fields the caller may assign.
- `ConfigItems.ParseExact` models exactly the twenty-character form with ASCII
  digits. It does not model any other leniency of the .NET parser.
- `ConfigItems.ParseExact` keeps second precision only. Ticks below a second
  are always zero for this format.
- The test projects are not modelled; they need a live server.
