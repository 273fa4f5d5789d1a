/**
  The grouping loop of the plugin generator's `preprocessSwagger`: every
  operation of every path becomes an API record, and the records are
  bucketed by the profile their path names. Profiles are kept in the order
  their first path appears; each profile records which kinds of API it has.

  The generator's hooks (`getDeclaration`, `getResponseCreation`,
  `getEventCreation`) are not interpreted: an API record keeps the values
  they would be applied to.
*/
module PluginGrouping {
  import opened JavaLang
  import opened Swagger
  import opened MessageDocs
  import opened PluginPaths

  // ---------------------------------------------------------------- one API

  /** The `api` map built for one operation. */
  datatype Api = Api(
    interfaceName: Option<string>,
    attributeName: Option<string>,
    apiPath: string,
    apiId: string,
    getApi: bool,
    postApi: bool,
    putApi: bool,
    deleteApi: bool,
    isOneShotApi: bool,
    isEventApi: bool,
    isStreamingApi: bool,
    responses: Option<Response>,
    events: Option<Response>,
    paramList: seq<Parameter>)

  /**
    Building an API dereferences the operation's Device Connect extension
    and its kind, and for a one-shot API its responses.
  */
  predicate ApiFails(op: Operation)
  {
    || op.dconnect.None?
    || op.dconnect.value.operationType.None?
    || (op.dconnect.value.operationType == Some(ONE_SHOT) && op.responses.None?)
  }

  /**
    The API of the operation `op` reached with `verb` under the path key
    `pathName` of profile `profileName`. Switching on a missing Device
    Connect extension or kind, and iterating missing responses of a one-shot
    API, throw a NullPointerException.
  */
  function ApiOf(profileName: Option<string>, pathName: string, verb: HttpMethod, op: Operation): (r: Result<Api>)
    ensures r.Throws? <==> ApiFails(op)
    ensures r.Throws? ==> r.exception == NullPointerException
    ensures r.Ok? ==>
      var api := r.value;
      var kind := op.dconnect.value.operationType.value;
      && api.interfaceName == InterfaceNameFromPath(pathName)
      && api.attributeName == AttributeNameFromPath(pathName)
      && api.apiPath == CreateApiPath(api.interfaceName, api.attributeName)
      && api.apiId == CreateApiIdentifier(verb, profileName, api.interfaceName, api.attributeName)
      && (api.getApi <==> verb == GET) && (api.postApi <==> verb == POST)
      && (api.putApi <==> verb == PUT) && (api.deleteApi <==> verb == DELETE)
      && (api.isOneShotApi <==> kind == ONE_SHOT) && (api.isEventApi <==> kind == EVENT)
      && (api.isStreamingApi <==> kind == STREAMING)
      && (api.responses.Some? <==>
            kind == ONE_SHOT && exists i :: 0 <= i < |op.responses.value| && op.responses.value[i].0 == "200")
      && (api.responses.Some? ==> api.responses == Lookup(op.responses.value, "200"))
      && (api.events.Some? <==> kind == EVENT && verb == PUT && op.dconnect.value.eventModel.Some?)
      && (api.events.Some? ==> api.events == op.dconnect.value.eventModel)
      && api.paramList == op.parameters
  {
    if ApiFails(op) then Throws(NullPointerException)
    else
      OneShotLookup(op);
      Ok(BuildApi(profileName, InterfaceNameFromPath(pathName), AttributeNameFromPath(pathName), verb, op))
  }

  /** A one-shot API finds its response exactly when some entry has the key "200". */
  lemma OneShotLookup(op: Operation)
    requires !ApiFails(op)
    ensures op.dconnect.value.operationType.value == ONE_SHOT ==>
      (Lookup(op.responses.value, "200").Some? <==> exists i :: 0 <= i < |op.responses.value| && op.responses.value[i].0 == "200")
  {
    if op.dconnect.value.operationType.value == ONE_SHOT {
      LookupFinds(op.responses.value, "200");
    }
  }

  /**
    The `api` map of an operation whose extension, kind and (for a one-shot
    API) responses are present, from the names its path gives.
  */
  function BuildApi(profileName: Option<string>, interfaceName: Option<string>, attributeName: Option<string>,
                    verb: HttpMethod, op: Operation): Api
    requires !ApiFails(op)
  {
    var kind := op.dconnect.value.operationType.value;
    var responses := if kind == ONE_SHOT then Lookup(op.responses.value, "200") else None;
    var events := if kind == EVENT && verb == PUT then op.dconnect.value.eventModel else None;
    Api(interfaceName, attributeName,
        CreateApiPath(interfaceName, attributeName),
        CreateApiIdentifier(verb, profileName, interfaceName, attributeName),
        verb == GET, verb == POST, verb == PUT, verb == DELETE,
        kind == ONE_SHOT, kind == EVENT, kind == STREAMING,
        responses, events, op.parameters)
  }

  // ---------------------------------------------------------------- every operation, in order

  /** One operation: the names its path gives, its method and the operation itself. */
  datatype Call = Call(
    profile: Option<string>,
    interfaceName: Option<string>,
    attributeName: Option<string>,
    verb: HttpMethod,
    operation: Operation)

  /** The operation `op`, reached with `verb` under the path `pathName` of profile `profile`. */
  function CallOf(profile: Option<string>, pathName: string, verb: HttpMethod, op: Operation): Call
  {
    Call(profile, InterfaceNameFromPath(pathName), AttributeNameFromPath(pathName), verb, op)
  }

  /** The operations of the path `pathName`, whose profile is `profile`. */
  function PathCalls(profile: Option<string>, pathName: string, item: PathItem): (r: seq<Call>)
    ensures |r| == |item|
  {
    seq(|item|, i requires 0 <= i < |item| => CallOf(profile, pathName, item[i].0, item[i].1))
  }

  /** The operations of all paths, path by path in declaration order. */
  function Calls(paths: seq<(string, PathItem)>): seq<Call>
  {
    if paths == [] then []
    else
      var (pathName, item) := paths[|paths| - 1];
      Calls(paths[..|paths| - 1]) + PathCalls(ProfileNameFromPath(pathName), pathName, item)
  }

  function CallApi(c: Call): Api
    requires !ApiFails(c.operation)
  {
    BuildApi(c.profile, c.interfaceName, c.attributeName, c.verb, c.operation)
  }

  // ---------------------------------------------------------------- selecting from a sequence

  /** The images under `f` of the elements of `s` that `keep` selects, in order. */
  function Select<T(!new), U>(s: seq<T>, keep: T -> bool, f: T --> U): seq<U>
    requires forall x :: keep(x) ==> f.requires(x)
    decreases |s|
  {
    if s == [] then []
    else Select(s[..|s| - 1], keep, f) + (if keep(s[|s| - 1]) then [f(s[|s| - 1])] else [])
  }

  lemma SelectAppend<T(!new), U>(s: seq<T>, x: T, keep: T -> bool, f: T --> U)
    requires forall x :: keep(x) ==> f.requires(x)
    ensures Select(s + [x], keep, f) == Select(s, keep, f) + (if keep(x) then [f(x)] else [])
  {
    assert (s + [x])[..|s|] == s;
  }

  lemma {:induction false} SelectLength<T(!new), U>(s: seq<T>, keep: T -> bool, f: T --> U)
    requires forall x :: keep(x) ==> f.requires(x)
    ensures |Select(s, keep, f)| <= |s|
    decreases |s|
  {
    if s != [] {
      SelectLength(s[..|s| - 1], keep, f);
    }
  }

  lemma {:induction false} SelectSound<T(!new), U>(s: seq<T>, keep: T -> bool, f: T --> U, y: U)
    requires forall x :: keep(x) ==> f.requires(x)
    requires y in Select(s, keep, f)
    ensures exists i :: 0 <= i < |s| && keep(s[i]) && y == f(s[i])
    decreases |s|
  {
    var n := |s| - 1;
    var init := s[..n];
    var extra := if keep(s[n]) then [f(s[n])] else [];
    assert Select(s, keep, f) == Select(init, keep, f) + extra;
    if y in Select(init, keep, f) {
      SelectSound(init, keep, f, y);
      var i :| 0 <= i < |init| && keep(init[i]) && y == f(init[i]);
      assert init[i] == s[i];
    } else {
      assert keep(s[n]) && y == f(s[n]);
    }
  }

  lemma {:induction false} SelectHas<T(!new), U>(s: seq<T>, keep: T -> bool, f: T --> U, i: nat)
    requires forall x :: keep(x) ==> f.requires(x)
    requires i < |s| && keep(s[i])
    ensures f(s[i]) in Select(s, keep, f)
    decreases |s|
  {
    var n := |s| - 1;
    var init := s[..n];
    var extra := if keep(s[n]) then [f(s[n])] else [];
    assert Select(s, keep, f) == Select(init, keep, f) + extra;
    if i < n {
      assert init[i] == s[i];
      SelectHas(init, keep, f, i);
      InAppend(f(s[i]), Select(init, keep, f), extra);
    } else {
      AppendIn(f(s[i]), Select(init, keep, f), extra);
    }
  }

  lemma {:induction false} SelectNone<T(!new), U>(s: seq<T>, keep: T -> bool, f: T --> U)
    requires forall x :: keep(x) ==> f.requires(x)
    requires forall i :: 0 <= i < |s| ==> !keep(s[i])
    ensures Select(s, keep, f) == []
    decreases |s|
  {
    if s != [] {
      SelectNone(s[..|s| - 1], keep, f);
    }
  }

  lemma InAppend<T>(x: T, a: seq<T>, b: seq<T>)
    requires x in a
    ensures x in a + b
  {
    var k :| 0 <= k < |a| && a[k] == x;
    assert (a + b)[k] == x;
  }

  lemma AppendIn<T>(x: T, a: seq<T>, b: seq<T>)
    requires x in b
    ensures x in a + b
  {
    var k :| 0 <= k < |b| && b[k] == x;
    assert (a + b)[|a| + k] == x;
  }

  // ---------------------------------------------------------------- the APIs of one profile

  /** Whether an operation is of profile `p` and has an API. */
  function Owned(p: Option<string>): Call -> bool
  {
    (c: Call) => c.profile == p && !ApiFails(c.operation)
  }

  /** The API of an operation that has one. */
  function Built(): Call --> Api
  {
    (c: Call) requires !ApiFails(c.operation) => CallApi(c)
  }

  /** The APIs of the operations of profile `p`, in order. */
  function ApisFor(calls: seq<Call>, p: Option<string>): seq<Api>
  {
    Select(calls, Owned(p), Built())
  }

  /**
    One more operation adds exactly its API to its own profile's list and
    leaves every other profile's list as it was.
  */
  lemma ApisForStep(calls: seq<Call>, c: Call, p: Option<string>)
    requires !ApiFails(c.operation)
    ensures c.profile == p ==> ApisFor(calls + [c], p) == ApisFor(calls, p) + [CallApi(c)]
    ensures c.profile != p ==> ApisFor(calls + [c], p) == ApisFor(calls, p)
  {
    SelectAppend(calls, c, Owned(p), Built());
  }

  /**
    A profile's list holds exactly the APIs of its own operations, and an
    operation's API is the one `ApiOf` builds from its path.
  */
  lemma ApisForMembers(calls: seq<Call>, p: Option<string>)
    ensures |ApisFor(calls, p)| <= |calls|
    ensures forall a :: a in ApisFor(calls, p) <==>
      exists i :: 0 <= i < |calls| && calls[i].profile == p && !ApiFails(calls[i].operation) && a == CallApi(calls[i])
  {
    var keep, f := Owned(p), Built();
    SelectLength(calls, keep, f);
    forall a | a in ApisFor(calls, p)
      ensures exists i :: 0 <= i < |calls| && calls[i].profile == p && !ApiFails(calls[i].operation) && a == CallApi(calls[i])
    {
      SelectSound(calls, keep, f, a);
    }
    forall i | 0 <= i < |calls| && calls[i].profile == p && !ApiFails(calls[i].operation)
      ensures CallApi(calls[i]) in ApisFor(calls, p)
    {
      SelectHas(calls, keep, f, i);
    }
  }

  /** The API recorded for an operation is the one `ApiOf` builds for it. */
  lemma CallApiOf(profile: Option<string>, pathName: string, verb: HttpMethod, op: Operation)
    requires !ApiFails(op)
    ensures ApiOf(profile, pathName, verb, op) == Ok(CallApi(CallOf(profile, pathName, verb, op)))
  {
  }

  /** A profile none of whose operations came yet has no APIs. */
  lemma ApisForAbsent(calls: seq<Call>, p: Option<string>)
    requires forall i :: 0 <= i < |calls| ==> calls[i].profile != p
    ensures ApisFor(calls, p) == []
  {
    SelectNone(calls, Owned(p), Built());
  }

  // ---------------------------------------------------------------- profiles in first-occurrence order

  /** The profiles the paths name, each once, in the order its first path comes. */
  function ProfileOrder(paths: seq<(string, PathItem)>): (r: seq<Option<string>>)
    ensures forall i, j :: 0 <= i < j < |r| ==> r[i] != r[j]
    ensures forall p :: p in r <==> exists i :: 0 <= i < |paths| && ProfileNameFromPath(paths[i].0) == p
  {
    if paths == [] then []
    else
      var init := paths[..|paths| - 1];
      var p := ProfileNameFromPath(paths[|paths| - 1].0);
      var r := ProfileOrder(init);
      assert forall i :: 0 <= i < |init| ==> init[i] == paths[i];
      if p in r then r else r + [p]
  }

  /**
    Profiles come in first-occurrence order: the profiles of the first `j`
    paths are a prefix of the profiles of all paths, so a later path never
    puts its profile ahead of one named earlier.
  */
  lemma {:induction false} ProfileOrderPrefix(paths: seq<(string, PathItem)>, j: nat)
    requires j <= |paths|
    ensures |ProfileOrder(paths[..j])| <= |ProfileOrder(paths)|
    ensures ProfileOrder(paths[..j]) == ProfileOrder(paths)[..|ProfileOrder(paths[..j])|]
    decreases |paths| - j
  {
    if j < |paths| {
      ProfileOrderPrefix(paths, j + 1);
      ProfileOrderStep(paths, j);
      var short, long, all := ProfileOrder(paths[..j]), ProfileOrder(paths[..j + 1]), ProfileOrder(paths);
      assert short == long[..|short|];
      assert long == all[..|long|];
      assert all[..|long|][..|short|] == all[..|short|];
    } else {
      assert paths[..j] == paths;
    }
  }

  /** One more path adds its profile at the end, unless an earlier path named it. */
  lemma ProfileOrderStep(paths: seq<(string, PathItem)>, j: nat)
    requires j < |paths|
    ensures var p := ProfileNameFromPath(paths[j].0);
      ProfileOrder(paths[..j + 1]) == ProfileOrder(paths[..j]) + (if p in ProfileOrder(paths[..j]) then [] else [p])
  {
    assert paths[..j + 1][..j] == paths[..j];
  }

  /** Every operation's profile is among the profiles of the paths. */
  lemma {:induction false} CallsHaveProfiles(paths: seq<(string, PathItem)>)
    ensures forall i :: 0 <= i < |Calls(paths)| ==> Calls(paths)[i].profile in ProfileOrder(paths)
    decreases |paths|
  {
    if paths != [] {
      var init := paths[..|paths| - 1];
      CallsHaveProfiles(init);
      var last := paths[|paths| - 1];
      assert last == paths[|paths| - 1];
      forall i | 0 <= i < |Calls(paths)|
        ensures Calls(paths)[i].profile in ProfileOrder(paths)
      {
        if i < |Calls(init)| {
          var p := Calls(init)[i].profile;
          var k :| 0 <= k < |init| && ProfileNameFromPath(init[k].0) == p;
          assert init[k] == paths[k];
        } else {
          assert Calls(paths)[i].profile == ProfileNameFromPath(last.0);
        }
      }
    }
  }

  // ---------------------------------------------------------------- the grouping loop

  /** No operation among `calls` fails to build its API. */
  predicate NoneFail(calls: seq<Call>)
  {
    forall i :: 0 <= i < |calls| ==> !ApiFails(calls[i].operation)
  }

  /** A profile's `apiList` and the `has...Api` flags put into its map. */
  datatype ProfileGroup = ProfileGroup(
    name: Option<string>,
    apiList: seq<Api>,
    hasGetApi: bool,
    hasPostApi: bool,
    hasPutApi: bool,
    hasDeleteApi: bool,
    hasOneShotApi: bool,
    hasEventApi: bool,
    hasStreamingApi: bool)

  /** Each flag of a profile is set exactly when one of its APIs is of that kind. */
  predicate FlagsAgree(g: ProfileGroup)
  {
    && (g.hasGetApi <==> exists i :: 0 <= i < |g.apiList| && g.apiList[i].getApi)
    && (g.hasPostApi <==> exists i :: 0 <= i < |g.apiList| && g.apiList[i].postApi)
    && (g.hasPutApi <==> exists i :: 0 <= i < |g.apiList| && g.apiList[i].putApi)
    && (g.hasDeleteApi <==> exists i :: 0 <= i < |g.apiList| && g.apiList[i].deleteApi)
    && (g.hasOneShotApi <==> exists i :: 0 <= i < |g.apiList| && g.apiList[i].isOneShotApi)
    && (g.hasEventApi <==> exists i :: 0 <= i < |g.apiList| && g.apiList[i].isEventApi)
    && (g.hasStreamingApi <==> exists i :: 0 <= i < |g.apiList| && g.apiList[i].isStreamingApi)
  }

  /** `groups` holds, for each profile, the APIs of `calls` and the flags they set. */
  predicate Grouped(groups: seq<ProfileGroup>, calls: seq<Call>)
  {
    && (forall i, j :: 0 <= i < j < |groups| ==> groups[i].name != groups[j].name)
    && (forall k :: 0 <= k < |groups| ==> groups[k].apiList == ApisFor(calls, groups[k].name) && FlagsAgree(groups[k]))
  }

  /** `b` keeps the profiles of `a`, in the same places. */
  predicate SameNames(a: seq<ProfileGroup>, b: seq<ProfileGroup>)
  {
    |a| == |b| && forall k :: 0 <= k < |a| ==> a[k].name == b[k].name
  }

  /** `LinkedHashMap.get`: where the profile `name` is kept, or -1. */
  function IndexOf(groups: seq<ProfileGroup>, name: Option<string>): (r: int)
    ensures -1 <= r < |groups|
    ensures r == -1 <==> forall k :: 0 <= k < |groups| ==> groups[k].name != name
    ensures r >= 0 ==> groups[r].name == name
  {
    if groups == [] then -1
    else if groups[|groups| - 1].name == name then |groups| - 1
    else IndexOf(groups[..|groups| - 1], name)
  }

  /** The APIs of the operations of one path, added to the profile kept at `idx`. */
  method AddPathApis(groups0: seq<ProfileGroup>, idx: int, profile: Option<string>, pathName: string, item: PathItem,
                     ghost done: seq<Call>)
    returns (r: Result<seq<ProfileGroup>>)
    requires 0 <= idx < |groups0| && groups0[idx].name == profile
    requires Grouped(groups0, done)
    ensures r.Throws? <==> exists i :: 0 <= i < |item| && ApiFails(item[i].1)
    ensures r.Throws? ==> r.exception == NullPointerException
    ensures r.Ok? ==>
      && SameNames(r.value, groups0)
      && Grouped(r.value, done + PathCalls(profile, pathName, item))
  {
    var calls := PathCalls(profile, pathName, item);
    var groups := groups0;
    ghost var seen := done;
    for i := 0 to |item|
      invariant SameNames(groups, groups0)
      invariant !FailsBefore(item, i)
      invariant seen == done + calls[..i]
      invariant Grouped(groups, seen)
    {
      var added := AddApi(groups, idx, profile, pathName, item[i].0, item[i].1, seen);
      if added.Throws? {
        FailsBeforeExists(item, i + 1);
        return Throws(added.exception);
      }
      AppendNext(done, calls, i);
      seen := seen + [calls[i]];
      groups := added.value;
    }
    FailsBeforeExists(item, |item|);
    AppendNext(done, calls, |item|);
    r := Ok(groups);
  }

  /** Some operation among the first `n` of a path fails to build its API. */
  predicate FailsBefore(item: PathItem, n: nat)
    requires n <= |item|
  {
    n > 0 && (ApiFails(item[n - 1].1) || FailsBefore(item, n - 1))
  }

  lemma {:induction false} FailsBeforeExists(item: PathItem, n: nat)
    requires n <= |item|
    ensures FailsBefore(item, n) <==> exists k :: 0 <= k < n && ApiFails(item[k].1)
  {
    if n > 0 {
      FailsBeforeExists(item, n - 1);
    }
  }

  /** The calls taken so far grow by the next one, and taking them all is taking the whole sequence. */
  lemma AppendNext(done: seq<Call>, calls: seq<Call>, i: nat)
    requires i <= |calls|
    ensures i < |calls| ==> done + calls[..i + 1] == (done + calls[..i]) + [calls[i]]
    ensures i == |calls| ==> done + calls[..i] == done + calls
  {
    if i < |calls| {
      assert calls[..i + 1] == calls[..i] + [calls[i]];
    }
  }

  /**
    One operation: its API is built, appended to its profile's `apiList`,
    and the profile's flags for its method and kind are set.
  */
  method AddApi(groups: seq<ProfileGroup>, idx: int, profileName: Option<string>, pathName: string,
                verb: HttpMethod, op: Operation, ghost calls: seq<Call>)
    returns (r: Result<seq<ProfileGroup>>)
    requires 0 <= idx < |groups| && groups[idx].name == profileName
    requires Grouped(groups, calls)
    ensures r.Throws? <==> ApiFails(op)
    ensures r.Throws? ==> r.exception == NullPointerException
    ensures r.Ok? ==>
      && SameNames(r.value, groups)
      && Grouped(r.value, calls + [CallOf(profileName, pathName, verb, op)])
  {
    var built := ApiOf(profileName, pathName, verb, op);
    if built.Throws? {
      return Throws(built.exception);
    }
    ghost var c := CallOf(profileName, pathName, verb, op);
    CallApiOf(profileName, pathName, verb, op);
    var groups' := AppendApi(groups, idx, built.value, calls, c);
    r := Ok(groups');
  }

  /**
    `apiList.add(api)` on the profile kept at `idx`, and `put` of each
    `has...Api` flag the API's method or kind sets.
  */
  method AppendApi(groups: seq<ProfileGroup>, idx: int, api: Api, ghost calls: seq<Call>, ghost c: Call)
    returns (r: seq<ProfileGroup>)
    requires 0 <= idx < |groups| && groups[idx].name == c.profile
    requires !ApiFails(c.operation) && api == CallApi(c)
    requires Grouped(groups, calls)
    ensures SameNames(r, groups)
    ensures Grouped(r, calls + [c])
  {
    var g0 := groups[idx];
    var g := g0.(
      apiList := g0.apiList + [api],
      hasGetApi := g0.hasGetApi || api.getApi,
      hasPostApi := g0.hasPostApi || api.postApi,
      hasPutApi := g0.hasPutApi || api.putApi,
      hasDeleteApi := g0.hasDeleteApi || api.deleteApi,
      hasOneShotApi := g0.hasOneShotApi || api.isOneShotApi,
      hasEventApi := g0.hasEventApi || api.isEventApi,
      hasStreamingApi := g0.hasStreamingApi || api.isStreamingApi);
    FlagsStep(g0, api, g);
    GroupedStep(groups, idx, calls, c, g);
    r := groups[idx := g];
  }

  /** Adding a call's API to its own profile keeps the grouping. */
  lemma GroupedStep(groups: seq<ProfileGroup>, idx: int, calls: seq<Call>, c: Call, g: ProfileGroup)
    requires 0 <= idx < |groups| && groups[idx].name == c.profile && !ApiFails(c.operation)
    requires Grouped(groups, calls)
    requires g.name == groups[idx].name && g.apiList == groups[idx].apiList + [CallApi(c)] && FlagsAgree(g)
    ensures Grouped(groups[idx := g], calls + [c])
  {
    forall k | 0 <= k < |groups|
      ensures ApisFor(calls + [c], groups[k].name) == if k == idx then g.apiList else groups[k].apiList
    {
      ApisForStep(calls, c, groups[k].name);
    }
  }

  lemma FlagsStep(g: ProfileGroup, api: Api, g': ProfileGroup)
    requires FlagsAgree(g)
    requires g' == g.(
        apiList := g.apiList + [api],
        hasGetApi := g.hasGetApi || api.getApi,
        hasPostApi := g.hasPostApi || api.postApi,
        hasPutApi := g.hasPutApi || api.putApi,
        hasDeleteApi := g.hasDeleteApi || api.deleteApi,
        hasOneShotApi := g.hasOneShotApi || api.isOneShotApi,
        hasEventApi := g.hasEventApi || api.isEventApi,
        hasStreamingApi := g.hasStreamingApi || api.isStreamingApi)
    ensures FlagsAgree(g')
  {
    assert g'.apiList[|g.apiList|] == api;
    assert forall i :: 0 <= i < |g.apiList| ==> g'.apiList[i] == g.apiList[i];
  }

  /**
    The grouping loop of `preprocessSwagger`: the profiles in the order
    their first path comes, each with the APIs of its operations in order
    and the flags they set; or, when some operation's API cannot be built,
    the NullPointerException that ends the loop.
  */
  method GroupProfiles(paths: seq<(string, PathItem)>) returns (r: Result<seq<ProfileGroup>>)
    ensures r.Throws? <==> exists i :: 0 <= i < |Calls(paths)| && ApiFails(Calls(paths)[i].operation)
    ensures r.Throws? ==> r.exception == NullPointerException
    ensures r.Ok? ==>
      && |r.value| == |ProfileOrder(paths)|
      && (forall k :: 0 <= k < |r.value| ==> r.value[k].name == ProfileOrder(paths)[k])
      && Grouped(r.value, Calls(paths))
  {
    var groups: seq<ProfileGroup> := [];
    for j := 0 to |paths|
      invariant NamesAre(groups, ProfileOrder(paths[..j]))
      invariant NoneFail(Calls(paths[..j]))
      invariant Grouped(groups, Calls(paths[..j]))
    {
      var added := AddPath(groups, paths, j);
      if added.Throws? {
        FailureInPath(paths, j);
        return Throws(added.exception);
      }
      NoFailureStep(paths, j);
      groups := added.value;
    }
    assert paths[..|paths|] == paths;
    r := Ok(groups);
  }

  /**
    One pass of the outer loop: the profile of the path `paths[j]` is looked
    up, or appended when it is new, and the path's APIs are added to it.
  */
  method AddPath(groups0: seq<ProfileGroup>, paths: seq<(string, PathItem)>, j: nat) returns (r: Result<seq<ProfileGroup>>)
    requires j < |paths|
    requires NamesAre(groups0, ProfileOrder(paths[..j]))
    requires Grouped(groups0, Calls(paths[..j]))
    ensures r.Throws? <==> exists i :: 0 <= i < |paths[j].1| && ApiFails(paths[j].1[i].1)
    ensures r.Throws? ==> r.exception == NullPointerException
    ensures r.Ok? ==> NamesAre(r.value, ProfileOrder(paths[..j + 1])) && Grouped(r.value, Calls(paths[..j + 1]))
  {
    var pathName := paths[j].0;
    var profileName := ProfileNameFromPath(pathName);
    var groups := groups0;
    var idx := IndexOf(groups, profileName);
    if idx < 0 {
      var created := ProfileGroup(profileName, [], false, false, false, false, false, false, false);
      NewProfile(paths, j, groups);
      GroupedNew(groups, Calls(paths[..j]), profileName);
      NamesAppend(groups, created, ProfileOrder(paths[..j]));
      groups := groups + [created];
      idx := |groups| - 1;
    } else {
      OldProfile(paths, j);
    }
    r := AddPathApis(groups, idx, profileName, pathName, paths[j].1, Calls(paths[..j]));
    if r.Ok? {
      NamesKept(r.value, groups, ProfileOrder(paths[..j + 1]));
      CallsStep(paths, j);
    }
  }

  /** `groups` keeps the profiles `names`, in that order. */
  predicate NamesAre(groups: seq<ProfileGroup>, names: seq<Option<string>>)
  {
    |groups| == |names| && forall k :: 0 <= k < |groups| ==> groups[k].name == names[k]
  }

  lemma NamesAppend(groups: seq<ProfileGroup>, g: ProfileGroup, names: seq<Option<string>>)
    requires NamesAre(groups, names)
    ensures NamesAre(groups + [g], names + [g.name])
  {
  }

  lemma NamesKept(r: seq<ProfileGroup>, groups: seq<ProfileGroup>, names: seq<Option<string>>)
    requires SameNames(r, groups) && NamesAre(groups, names)
    ensures NamesAre(r, names)
  {
  }

  /** An operation of the path `paths[j]` whose API cannot be built is one of all the operations. */
  lemma FailureInPath(paths: seq<(string, PathItem)>, j: nat)
    requires j < |paths|
    requires exists i :: 0 <= i < |paths[j].1| && ApiFails(paths[j].1[i].1)
    ensures exists i :: 0 <= i < |Calls(paths)| && ApiFails(Calls(paths)[i].operation)
  {
    CallsStep(paths, j);
    CallsSplit(paths, j + 1);
    var i :| 0 <= i < |paths[j].1| && ApiFails(paths[j].1[i].1);
    var done := Calls(paths[..j]);
    assert Calls(paths)[|done| + i] == Calls(paths[..j + 1])[|done| + i];
  }

  /** When no operation of the path `paths[j]` fails, none of the operations up to it does. */
  lemma NoFailureStep(paths: seq<(string, PathItem)>, j: nat)
    requires j < |paths|
    requires NoneFail(Calls(paths[..j]))
    requires forall i :: 0 <= i < |paths[j].1| ==> !ApiFails(paths[j].1[i].1)
    ensures NoneFail(Calls(paths[..j + 1]))
  {
    CallsStep(paths, j);
    PathCallsNoneFail(ProfileNameFromPath(paths[j].0), paths[j].0, paths[j].1);
    NoneFailAppend(Calls(paths[..j]), PathCalls(ProfileNameFromPath(paths[j].0), paths[j].0, paths[j].1));
  }

  lemma PathCallsNoneFail(profile: Option<string>, pathName: string, item: PathItem)
    requires forall i :: 0 <= i < |item| ==> !ApiFails(item[i].1)
    ensures NoneFail(PathCalls(profile, pathName, item))
  {
    var calls := PathCalls(profile, pathName, item);
    forall i | 0 <= i < |calls| ensures !ApiFails(calls[i].operation) {
      assert calls[i].operation == item[i].1;
    }
  }

  lemma NoneFailAppend(done: seq<Call>, more: seq<Call>)
    requires NoneFail(done) && NoneFail(more)
    ensures NoneFail(done + more)
  {
    forall i | |done| <= i < |done + more| ensures !ApiFails((done + more)[i].operation) {
      assert (done + more)[i] == more[i - |done|];
    }
  }

  /** The calls of one more path follow those of the paths before it. */
  lemma CallsStep(paths: seq<(string, PathItem)>, j: nat)
    requires j < |paths|
    ensures Calls(paths[..j + 1]) == Calls(paths[..j]) + PathCalls(ProfileNameFromPath(paths[j].0), paths[j].0, paths[j].1)
  {
    assert paths[..j + 1][..j] == paths[..j];
  }

  /** A path naming a profile not seen yet appends that profile, with no APIs so far. */
  lemma NewProfile(paths: seq<(string, PathItem)>, j: nat, groups: seq<ProfileGroup>)
    requires j < |paths|
    requires NamesAre(groups, ProfileOrder(paths[..j]))
    requires IndexOf(groups, ProfileNameFromPath(paths[j].0)) == -1
    ensures ProfileOrder(paths[..j + 1]) == ProfileOrder(paths[..j]) + [ProfileNameFromPath(paths[j].0)]
    ensures ApisFor(Calls(paths[..j]), ProfileNameFromPath(paths[j].0)) == []
  {
    var p := ProfileNameFromPath(paths[j].0);
    assert paths[..j + 1][..j] == paths[..j];
    assert p !in ProfileOrder(paths[..j]);
    CallsHaveProfiles(paths[..j]);
    ApisForAbsent(Calls(paths[..j]), p);
  }

  /** A profile with no APIs so far can be added, with every flag clear. */
  lemma GroupedNew(groups: seq<ProfileGroup>, calls: seq<Call>, p: Option<string>)
    requires Grouped(groups, calls)
    requires forall k :: 0 <= k < |groups| ==> groups[k].name != p
    requires ApisFor(calls, p) == []
    ensures Grouped(groups + [ProfileGroup(p, [], false, false, false, false, false, false, false)], calls)
  {
  }

  /** A path naming a profile already seen leaves the profile order as it was. */
  lemma OldProfile(paths: seq<(string, PathItem)>, j: nat)
    requires j < |paths|
    requires ProfileNameFromPath(paths[j].0) in ProfileOrder(paths[..j])
    ensures ProfileOrder(paths[..j + 1]) == ProfileOrder(paths[..j])
  {
    ProfileOrderStep(paths, j);
  }

  /** The operations of a prefix of the paths come first among all operations. */
  lemma {:induction false} CallsSplit(paths: seq<(string, PathItem)>, j: nat)
    requires j <= |paths|
    ensures |Calls(paths[..j])| <= |Calls(paths)|
    ensures Calls(paths) == Calls(paths[..j]) + Calls(paths)[|Calls(paths[..j])|..]
    decreases |paths| - j
  {
    if j < |paths| {
      var all, a, b := Calls(paths), Calls(paths[..j]), Calls(paths[..j + 1]);
      CallsSplit(paths, j + 1);
      assert all[..|b|] == b;
      assert b[..|a|] == a by {
        assert paths[..j + 1][..j] == paths[..j];
      }
      assert all[..|a|] == a;
      assert all == all[..|a|] + all[|a|..];
    } else {
      assert paths[..j] == paths;
    }
  }
}
