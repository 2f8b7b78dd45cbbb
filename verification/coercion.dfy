/** The fail-soft part of `CentralConfigManager.Get<T>(application, name,
    defaultValue)`: turning the envelope of a `config/get` call into a value
    of the caller's type, with every failure along the way collapsing to the
    caller's default. */
module Coercion {
  import opened Wrappers
  import opened Runtime
  import opened ConfigItems
  import opened ConfigResponses

  /** The result of the remote call as `Get(application, name).Result` sees
      it: a thrown exception, a null envelope, or an envelope. */
  type Fetched = Result<Option<ConfigResponse<ConfigItem>>, Exception>

  /** What `typeof(T)` tells the conversion about the target type. An
      enumeration lists its members as (name, value) pairs in the order the
      runtime enumerates them, with the runtime's conversion of a numeric
      string into a value of the enumeration; any other type brings
      `Convert.ChangeType(string, T)`, `None` where that throws. */
  datatype TargetType<T> =
    | EnumType(members: seq<(string, T)>, fromNumber: string -> Option<T>)
    | OtherType(changeType: string -> Option<T>)

  /** `Convert.ChangeType(s, typeof(string))` hands the string back. */
  function ChangeTypeToString(s: string): Option<Str> {
    Some(Some(s))
  }

  /** The target type `string` of `Get<string>`. */
  function StringType(): TargetType<Str> {
    OtherType(ChangeTypeToString)
  }

  /** The value of the first member whose name equals `key` ignoring case. */
  function FindMember<T>(members: seq<(string, T)>, key: string): (r: Option<T>)
    ensures r.None? <==> forall i :: 0 <= i < |members| ==> !EqualsIgnoreCase(members[i].0, key)
    ensures r.Some? ==>
      exists i :: (0 <= i < |members| && EqualsIgnoreCase(members[i].0, key)
        && r.value == members[i].1
        && forall j :: 0 <= j < i ==> !EqualsIgnoreCase(members[j].0, key))
  {
    if members == [] then None
    else if EqualsIgnoreCase(members[0].0, key) then Some(members[0].1)
    else
      var r := FindMember(members[1..], key);
      assert forall i :: 1 <= i < |members| ==> members[i] == members[1..][i - 1];
      r
  }

  /** Whether `Enum.Parse` first tries to read the (trimmed) text as a number. */
  predicate LooksNumeric(t: string) {
    t != [] && (IsDigit(t[0]) || t[0] == '-' || t[0] == '+')
  }

  /** `Enum.Parse(typeof(T), s, ignoreCase: true)` for one member name:
      surrounding white space is ignored, blank text fails, text that starts
      like a number is converted as a number when it can be, and otherwise the
      text must name a member ignoring case. */
  function EnumParse<T>(members: seq<(string, T)>, fromNumber: string -> Option<T>, s: string): (r: Option<T>)
    ensures Trim(s) == "" ==> r.None?
    ensures r.None? <==>
      (Trim(s) == "" || (!(LooksNumeric(Trim(s)) && fromNumber(Trim(s)).Some?)
        && forall i :: 0 <= i < |members| ==> !EqualsIgnoreCase(members[i].0, Trim(s))))
    ensures r.Some? ==>
      (r == fromNumber(Trim(s))
        || exists i :: 0 <= i < |members| && EqualsIgnoreCase(members[i].0, Trim(s)) && r.value == members[i].1)
  {
    var t := Trim(s);
    if t == "" then None
    else if LooksNumeric(t) && fromNumber(t).Some? then fromNumber(t)
    else FindMember(members, t)
  }

  /** The conversion inside the `try`, for a non-empty string. */
  function Convert<T>(target: TargetType<T>, s: string): (r: Option<T>)
    ensures target.OtherType? ==> r == target.changeType(s)
    ensures target.EnumType? && IsBlank(s) ==> r.None?
  {
    TrimEmptyIffBlank(s);
    match target
    case EnumType(members, fromNumber) => EnumParse(members, fromNumber, s)
    case OtherType(changeType) => changeType(s)
  }

  /** `.Result.Data.Value`: `None` where reading it throws (a failed call, a
      null envelope, a null `Data`), otherwise the stored value, itself
      possibly null. */
  function StoredValue(fetched: Fetched): (r: Option<Str>)
    ensures r.Some? <==> fetched.Success? && fetched.value.Some? && fetched.value.value.data.Some?
    ensures r.Some? ==> r.value == fetched.value.value.data.value.value
  {
    match fetched
    case Failure(_) => None
    case Success(None) => None
    case Success(Some(response)) =>
      match response.data
      case None => None
      case Some(item) => Some(item.value)
  }

  /** The value the `try` block assigns to `results`, if it assigns one. */
  function Converted<T>(fetched: Fetched, target: TargetType<T>): (r: Option<T>)
    ensures r.Some? <==> exists s :: StoredValue(fetched) == Some(Some(s)) && s != "" && Convert(target, s).Some?
    ensures r.Some? ==> exists s :: StoredValue(fetched) == Some(Some(s)) && r == Convert(target, s)
  {
    match StoredValue(fetched)
    case Some(Some(s)) => if s != "" then Convert(target, s) else None
    case _ => None
  }

  /** `Get<T>(application, name, defaultValue)` once `fetched` is what the
      `config/get` call for `name` produced (the call is only made when `name`
      is neither null nor empty). */
  function TypedGet<T>(name: Str, fetched: Fetched, target: TargetType<T>, defaultValue: T): (r: T)
    ensures IsNullOrEmpty(name) ==> r == defaultValue
    ensures r == defaultValue || Converted(fetched, target) == Some(r)
    ensures !IsNullOrEmpty(name) && Converted(fetched, target).Some? ==> r == Converted(fetched, target).value
  {
    if IsNullOrEmpty(name) then defaultValue else Converted(fetched, target).GetOr(defaultValue)
  }

  /** A null or empty name yields the default, whatever the service holds. */
  lemma EmptyNameYieldsDefault<T>(name: Str, fetched: Fetched, target: TargetType<T>, defaultValue: T)
    requires IsNullOrEmpty(name)
    ensures TypedGet(name, fetched, target, defaultValue) == defaultValue
  {
  }

  /** The result differs from the default only when the call succeeded, the
      envelope carried an item whose value is a non-empty string, and that
      string converted to the result. */
  lemma NonDefaultMeansConverted<T>(name: Str, fetched: Fetched, target: TargetType<T>, defaultValue: T)
    requires TypedGet(name, fetched, target, defaultValue) != defaultValue
    ensures !IsNullOrEmpty(name)
    ensures exists s :: (StoredValue(fetched) == Some(Some(s)) && s != ""
      && Convert(target, s) == Some(TypedGet(name, fetched, target, defaultValue)))
  {
  }

  /** Every failure on the way yields the default: a thrown call, a null
      envelope, a null `Data`, a null or empty value, a failed conversion. */
  lemma FailureYieldsDefault<T>(name: Str, fetched: Fetched, target: TargetType<T>, defaultValue: T)
    requires || fetched.Failure?
             || fetched == Success(None)
             || (fetched.Success? && fetched.value.Some? && fetched.value.value.data.None?)
             || (StoredValue(fetched).Some? && IsNullOrEmpty(StoredValue(fetched).value))
             || (exists s :: StoredValue(fetched) == Some(Some(s)) && Convert(target, s).None?)
    ensures TypedGet(name, fetched, target, defaultValue) == defaultValue
  {
  }

  /** A successful conversion of a non-empty stored value is the result. */
  lemma ConversionIsResult<T>(name: Str, item: ConfigItem, status: int, message: Str, target: TargetType<T>, defaultValue: T)
    requires !IsNullOrEmpty(name) && item.value.Some? && item.value.value != ""
    requires Convert(target, item.value.value).Some?
    ensures TypedGet(name, Success(Some(ConfigResponse(status, message, Some(item)))), target, defaultValue)
      == Convert(target, item.value.value).value
  {
  }

  /** For an enumeration and a value with no surrounding white space that
      does not start like a number: the first member whose name equals the
      value ignoring case, or the default when no member matches. */
  lemma EnumByName<T>(members: seq<(string, T)>, fromNumber: string -> Option<T>, s: string, defaultValue: T)
    requires s != "" && Trim(s) == s && !LooksNumeric(s)
    ensures var r := Convert(EnumType(members, fromNumber), s).GetOr(defaultValue);
      && ((forall i :: 0 <= i < |members| ==> !EqualsIgnoreCase(members[i].0, s)) ==> r == defaultValue)
      && ((exists i :: 0 <= i < |members| && EqualsIgnoreCase(members[i].0, s)) ==>
            exists i :: 0 <= i < |members| && EqualsIgnoreCase(members[i].0, s) && r == members[i].1
              && forall j :: 0 <= j < i ==> !EqualsIgnoreCase(members[j].0, s))
  {
  }

  /** Member lookup ignores case: two keys equal up to case find the same
      member. */
  lemma {:induction false} FindMemberIgnoresCase<T>(members: seq<(string, T)>, a: string, b: string)
    requires EqualsIgnoreCase(a, b)
    ensures FindMember(members, a) == FindMember(members, b)
  {
    if members != [] {
      EqualsIgnoreCaseEquivalence(members[0].0, a, b);
      EqualsIgnoreCaseEquivalence(members[0].0, b, a);
      EqualsIgnoreCaseEquivalence(a, b, members[0].0);
      FindMemberIgnoresCase(members[1..], a, b);
    }
  }

  /** `Get<string>` with a null default hands back the stored value when it
      is a non-empty string, and null in every other case (an empty value
      becomes null, not `""`). */
  lemma StringGetPassesValue(name: Str, fetched: Fetched)
    requires !IsNullOrEmpty(name)
    ensures var r := TypedGet(name, fetched, StringType(), None);
      r == if StoredValue(fetched).Some? && !IsNullOrEmpty(StoredValue(fetched).value)
           then StoredValue(fetched).value else None
  {
  }
}
