/** `CentralConfigManager`: the client object that holds the caller context
    (application, user, group, admin and internal flags, URL, host name),
    reads single configuration values from the service, and evaluates
    feature flags against that context. */
module CentralConfig {
  import opened Wrappers
  import opened Runtime
  import opened ConfigItems
  import opened ConfigResponses
  import opened Coercion

  const ApplicationNotSetMessage: string := "The calling application has not been set"
  const BlankFlagNameMessage: string := "The feature flag name cannot be blank"

  /** The guard of `Get(name)`, `Get<T>(name, …)` and `FeatureEnabled`: the
      application compares equal to `string.Empty`. A null application does
      not. */
  predicate ApplicationNotSet(application: Str)
    ensures ApplicationNotSet(application) ==> IsNullOrEmpty(application)
    ensures application.None? ==> !ApplicationNotSet(application)
  {
    application == Some("")
  }

  /** The `config/get` endpoint of the configuration service as the client
      sees it: the envelope it answers for each request body, and the log of
      the requests it has received. An answer is `Failure(RemoteCallFailed)`
      where the HTTP call or the deserialisation of its body fails. */
  class RemoteService {
    const answer: ConfigItem -> Fetched
    var received: seq<ConfigItem>

    constructor (answer: ConfigItem -> Fetched)
      ensures this.answer == answer && received == []
    {
      this.answer := answer;
      received := [];
    }

    /** One POST to `config/get` with `request` as its body. */
    method ConfigGet(request: ConfigItem) returns (r: Fetched)
      modifies this`received
      ensures received == old(received) + [request]
      ensures r == answer(request)
    {
      received := received + [request];
      r := answer(request);
    }
  }

  /** The external feature-flag library: `ToFeatureFlag` on the raw
      definition (possibly null) and `Feature.IsEnabled(flag, user, group,
      url, isInternal, isAdmin)`. Both are left uninterpreted. */
  datatype FlagLibrary<!Flag> = FlagLibrary(
    toFeatureFlag: Str -> Flag,
    isEnabled: (Flag, string, string, string, bool, bool) -> bool)

  // ---- The HostName getter, as functions of the stored field ----

  /** The value the `HostName` getter returns for stored name `stored` on a
      machine called `machineName`; `Trim()` on a null field throws. */
  function HostNameRead(stored: Str, machineName: string): (r: Result<string, Exception>)
    ensures r.Failure? <==> stored.None?
    ensures r.Failure? ==> r.error == NullReferenceException
    ensures r.Success? ==> r.value == machineName || (r.value == stored.value && !IsBlank(r.value))
  {
    match stored
    case None => Failure(NullReferenceException)
    case Some(h) =>
      TrimEmptyIffBlank(h);
      if Trim(h) == "" then Success(machineName) else Success(h)
  }

  /** The `_hostname` field after one read of `HostName`. */
  function HostNameStored(stored: Str, machineName: string): (r: Str)
    ensures r.None? <==> stored.None?
    ensures stored.Some? && !IsBlank(stored.value) ==> r == stored
    ensures stored.Some? && IsBlank(stored.value) ==> r == Some(machineName)
  {
    match stored
    case Some(h) =>
      TrimEmptyIffBlank(h);
      if Trim(h) == "" then Some(machineName) else stored
    case None => None
  }

  /** Reading `HostName` again gives the same value and leaves the field as
      the first read left it. */
  lemma HostNameStable(stored: Str, machineName: string)
    ensures HostNameRead(HostNameStored(stored, machineName), machineName) == HostNameRead(stored, machineName)
    ensures HostNameStored(HostNameStored(stored, machineName), machineName) == HostNameStored(stored, machineName)
  {
  }

  /** The getter returns either the machine name or a stored name that is
      not all white space, and it stores the value it returns. */
  lemma HostNameNotBlank(stored: Str, machineName: string)
    requires HostNameRead(stored, machineName).Success?
    ensures var h := HostNameRead(stored, machineName).value;
      (h == machineName || !IsBlank(h)) && HostNameStored(stored, machineName) == Some(h)
  {
    TrimEmptyIffBlank(stored.value);
  }

  // ---- Get(application, name), as functions of the state before it ----

  /** The body `Get(application, name)` posts: exactly that name, that
      application and the host name; every other field at its default. */
  function LookupRequest(application: Str, name: Str, machine: string): (r: ConfigItem)
    ensures r.name == name && r.application == application && r.machine == Some(machine)
    ensures r.(application := None, machine := None, name := None) == EmptyItem
  {
    EmptyItem.(application := application, machine := Some(machine), name := name)
  }

  /** The requests one `Get(application, name)` sends: none when reading the
      host name throws, otherwise one. */
  function RequestsSent(stored: Str, machineName: string, application: Str, name: Str): (sent: seq<ConfigItem>)
    ensures |sent| <= 1
    ensures |sent| == 1 <==> stored.Some?
    ensures |sent| == 1 ==>
      (sent[0].name == name && sent[0].application == application
        && sent[0].machine == Some(HostNameRead(stored, machineName).value)
        && sent[0].id == 0 && sent[0].value == None && sent[0].lastUpdatedRaw == None)
  {
    match HostNameRead(stored, machineName)
    case Failure(_) => []
    case Success(h) => [LookupRequest(application, name, h)]
  }

  /** What `Get(application, name)` returns: the exception of the host-name
      read, or the service's answer to the request, unmodified. */
  function Fetch(answer: ConfigItem -> Fetched, stored: Str, machineName: string, application: Str, name: Str): (r: Fetched)
    ensures RequestsSent(stored, machineName, application, name) == [] ==> r == Failure(NullReferenceException)
    ensures var sent := RequestsSent(stored, machineName, application, name);
      |sent| == 1 ==> r == answer(sent[0])
  {
    match HostNameRead(stored, machineName)
    case Failure(e) => Failure(e)
    case Success(h) => answer(LookupRequest(application, name, h))
  }

  class CentralConfigManager {
    var application: Str
    var user: Str
    var group: Str
    var isAdminUser: bool
    var isInternalUser: bool
    var url: Str
    /** The `_hostname` field behind the `HostName` property. */
    var hostname: Str
    /** `_baseServiceUrl`. */
    const baseServiceUrl: string
    /** `Environment.MachineName` of the machine the client runs on. */
    const localMachineName: string

    /** `CentralConfigManager(serverUrl)`: no application and no URL (both
        null), empty user, group and host name, both flags false. */
    constructor (serverUrl: string, localMachineName: string)
      ensures application == None && url == None && hostname == Some("")
      ensures user == Some("") && group == Some("") && !isAdminUser && !isInternalUser
      ensures baseServiceUrl == serverUrl && this.localMachineName == localMachineName
    {
      baseServiceUrl := serverUrl;
      this.localMachineName := localMachineName;
      hostname := Some("");
      application := None;
      url := None;
      user := Some("");
      group := Some("");
      isAdminUser := false;
      isInternalUser := false;
    }

    /** `CentralConfigManager(serverUrl, application, machineName = "")`. */
    constructor ForApplication(serverUrl: string, application: Str, machineName: Str, localMachineName: string)
      ensures this.application == application && hostname == machineName && url == None
      ensures user == Some("") && group == Some("") && !isAdminUser && !isInternalUser
      ensures baseServiceUrl == serverUrl && this.localMachineName == localMachineName
    {
      baseServiceUrl := serverUrl;
      this.localMachineName := localMachineName;
      this.application := application;
      hostname := machineName;
      url := None;
      user := Some("");
      group := Some("");
      isAdminUser := false;
      isInternalUser := false;
    }

    /** `CentralConfigManager(serverUrl, application, user, group, IsAdmin,
        IsInternal, machineName = "")`. */
    constructor ForFeatureFlags(serverUrl: string, application: Str, user: Str, group: Str,
                                isAdmin: bool, isInternal: bool, machineName: Str, localMachineName: string)
      ensures this.application == application && hostname == machineName && url == None
      ensures this.user == user && this.group == group
      ensures isAdminUser == isAdmin && isInternalUser == isInternal
      ensures baseServiceUrl == serverUrl && this.localMachineName == localMachineName
    {
      baseServiceUrl := serverUrl;
      this.localMachineName := localMachineName;
      this.application := application;
      hostname := machineName;
      url := None;
      this.user := user;
      this.group := group;
      isAdminUser := isAdmin;
      isInternalUser := isInternal;
    }

    /** The `HostName` getter: fills a blank field with the machine name, then
        returns the field. */
    method HostName() returns (r: Result<string, Exception>)
      modifies this`hostname
      ensures r == HostNameRead(old(hostname), localMachineName)
      ensures hostname == HostNameStored(old(hostname), localMachineName)
      ensures r.Success? ==> hostname == Some(r.value)
    {
      if hostname.None? {
        return Failure(NullReferenceException);
      }
      if Trim(hostname.value) == "" {
        hostname := Some(localMachineName);
      }
      r := Success(hostname.value);
    }

    /** `Get(application, name)`: posts the request for `name` in
        `application` on this host and returns the answer unmodified. */
    method GetItem(application: Str, name: Str, service: RemoteService) returns (r: Fetched)
      modifies this`hostname, service`received
      ensures r == Fetch(service.answer, old(hostname), localMachineName, application, name)
      ensures hostname == HostNameStored(old(hostname), localMachineName)
      ensures service.received == old(service.received) + RequestsSent(old(hostname), localMachineName, application, name)
    {
      var host := HostName();
      if host.Failure? {
        return Failure(host.error);
      }
      r := service.ConfigGet(LookupRequest(application, name, host.value));
    }

    /** `Get(name)`: `Get(Application, name)`, after rejecting an application
        equal to `""`. */
    method GetItemByName(name: Str, service: RemoteService) returns (r: Result<Fetched, Exception>)
      modifies this`hostname, service`received
      ensures ApplicationNotSet(application) ==>
        r == Failure(ArgumentException(ApplicationNotSetMessage))
        && hostname == old(hostname) && service.received == old(service.received)
      ensures !ApplicationNotSet(application) ==>
        r == Success(Fetch(service.answer, old(hostname), localMachineName, application, name))
        && hostname == HostNameStored(old(hostname), localMachineName)
        && service.received == old(service.received) + RequestsSent(old(hostname), localMachineName, application, name)
    {
      if ApplicationNotSet(application) {
        return Failure(ArgumentException(ApplicationNotSetMessage));
      }
      var fetched := GetItem(application, name, service);
      r := Success(fetched);
    }

    /** `Get<T>(application, name, defaultValue)`: never throws; asks the
        service only for a name that is neither null nor empty. */
    method GetValue<T>(application: Str, name: Str, target: TargetType<T>, defaultValue: T, service: RemoteService)
      returns (r: T)
      modifies this`hostname, service`received
      ensures r == TypedGet(name, Fetch(service.answer, old(hostname), localMachineName, application, name), target, defaultValue)
      ensures IsNullOrEmpty(name) ==> hostname == old(hostname) && service.received == old(service.received)
      ensures !IsNullOrEmpty(name) ==>
        hostname == HostNameStored(old(hostname), localMachineName)
        && service.received == old(service.received) + RequestsSent(old(hostname), localMachineName, application, name)
    {
      r := defaultValue;
      if !IsNullOrEmpty(name) {
        var fetched := GetItem(application, name, service);
        var converted := Converted(fetched, target);
        if converted.Some? {
          r := converted.value;
        }
      }
    }

    /** `Get<T>(name, defaultValue)`: `Get<T>(Application, name,
        defaultValue)`, after rejecting an application equal to `""`. */
    method GetValueByName<T>(name: Str, target: TargetType<T>, defaultValue: T, service: RemoteService)
      returns (r: Result<T, Exception>)
      modifies this`hostname, service`received
      ensures ApplicationNotSet(application) ==>
        r == Failure(ArgumentException(ApplicationNotSetMessage))
        && hostname == old(hostname) && service.received == old(service.received)
      ensures !ApplicationNotSet(application) ==>
        r == Success(TypedGet(name, Fetch(service.answer, old(hostname), localMachineName, application, name), target, defaultValue))
      ensures !ApplicationNotSet(application) && IsNullOrEmpty(name) ==>
        hostname == old(hostname) && service.received == old(service.received)
      ensures !ApplicationNotSet(application) && !IsNullOrEmpty(name) ==>
        hostname == HostNameStored(old(hostname), localMachineName)
        && service.received == old(service.received) + RequestsSent(old(hostname), localMachineName, application, name)
    {
      if ApplicationNotSet(application) {
        return Failure(ArgumentException(ApplicationNotSetMessage));
      }
      var value := GetValue(application, name, target, defaultValue, service);
      r := Success(value);
    }

    /** `FeatureEnabled(name)`: rejects an application equal to `""`, then a
        blank flag name, before any lookup; otherwise fetches the flag's
        definition with `Get<string>(name)` and asks the flag library whether
        it is enabled for the current context, null context strings passed
        as `""`. */
    method FeatureEnabled<Flag>(name: Str, service: RemoteService, library: FlagLibrary<Flag>)
      returns (r: Result<bool, Exception>)
      modifies this`hostname, service`received
      ensures ApplicationNotSet(application) ==>
        r == Failure(ArgumentException(ApplicationNotSetMessage))
      ensures !ApplicationNotSet(application) && IsNullOrWhiteSpace(name) ==>
        r == Failure(ArgumentException(BlankFlagNameMessage))
      ensures r.Failure? ==> hostname == old(hostname) && service.received == old(service.received)
      ensures !ApplicationNotSet(application) && !IsNullOrWhiteSpace(name) ==>
        var definition := TypedGet(name, Fetch(service.answer, old(hostname), localMachineName, application, name), StringType(), None);
        && r == Success(library.isEnabled(library.toFeatureFlag(definition),
                                          OrEmpty(user), OrEmpty(group), OrEmpty(url), isInternalUser, isAdminUser))
        && hostname == HostNameStored(old(hostname), localMachineName)
        && service.received == old(service.received) + RequestsSent(old(hostname), localMachineName, application, name)
    {
      if ApplicationNotSet(application) {
        return Failure(ArgumentException(ApplicationNotSetMessage));
      }
      if IsNullOrWhiteSpace(name) {
        return Failure(ArgumentException(BlankFlagNameMessage));
      }
      var definition :- GetValueByName(name, StringType(), None, service);
      var flag := library.toFeatureFlag(definition);
      r := Success(library.isEnabled(flag, OrEmpty(user), OrEmpty(group), OrEmpty(url), isInternalUser, isAdminUser));
    }
  }
}
