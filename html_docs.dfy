/**
  The HTML documentation generator's `processOpts`: for every profile
  specification, the list of its operations with their parameter tables and
  their response and event tables, and two lists of profiles sorted by name.
*/
module HtmlDocs {
  import opened JavaLang
  import opened Swagger
  import opened TypeNames
  import opened MessageDocs

  // ---------------------------------------------------------------- paths, ids and names

  /** The base path of a profile: the declared one, or "/gotapi/" and the profile's name. */
  function BasePath(declared: Option<string>, profileName: string): (r: string)
    ensures declared.Some? ==> r == declared.value
    ensures declared.None? ==> |r| == 8 + |profileName| && r[..8] == "/gotapi/" && r[8..] == profileName
  {
    if declared.None? then "/gotapi/" + profileName else declared.value
  }

  /** A path key appended to the base path; the root key "/" adds nothing. */
  function FullPathName(basePath: string, pathName: string): (r: string)
    ensures |basePath| <= |r| && r[..|basePath|] == basePath
    ensures pathName == "/" ==> r == basePath
    ensures pathName != "/" ==> r[|basePath|..] == pathName
  {
    basePath + (if pathName == "/" then "" else pathName)
  }

  /**
    Under the default base path, the full path of the root key reads as the
    segments "gotapi" and the profile, and that of a one-segment key as
    "gotapi", the profile and the key's segment.
  */
  lemma DefaultPathSegments(profileName: string, segment: string)
    requires profileName != "" && '/' !in profileName && '/' !in segment
    ensures Split(FullPathName(BasePath(None, profileName), "/"), '/') == ["", "gotapi", profileName]
    ensures segment != "" ==>
      Split(FullPathName(BasePath(None, profileName), "/" + segment), '/') == ["", "gotapi", profileName, segment]
  {
    RootSegments(profileName);
    if segment != "" {
      KeySegments(profileName, segment);
    }
  }

  lemma RootSegments(profileName: string)
    requires profileName != "" && '/' !in profileName
    ensures Split(FullPathName(BasePath(None, profileName), "/"), '/') == ["", "gotapi", profileName]
  {
    var path := "/gotapi/" + profileName;
    SplitThree("", "gotapi", profileName, '/');
    assert "" + ['/'] + "gotapi" + ['/'] == "/gotapi/";
  }

  lemma KeySegments(profileName: string, segment: string)
    requires profileName != "" && '/' !in profileName && segment != "" && '/' !in segment
    ensures Split(FullPathName(BasePath(None, profileName), "/" + segment), '/') == ["", "gotapi", profileName, segment]
  {
    GotapiSplit(profileName, segment);
    assert "/" + segment != "/";
    assert FullPathName(BasePath(None, profileName), "/" + segment) == "/gotapi/" + profileName + "/" + segment;
  }

  /** The parts of "/gotapi/<profile>/<segment>". */
  lemma GotapiSplit(profileName: string, segment: string)
    requires profileName != "" && '/' !in profileName && segment != "" && '/' !in segment
    ensures Split("/gotapi/" + profileName + "/" + segment, '/') == ["", "gotapi", profileName, segment]
  {
    SplitFour("", "gotapi", profileName, segment, '/');
    assert "" + ['/'] + "gotapi" + ['/'] == "/gotapi/" && ['/'] == "/";
  }

  /** The character an operation id shows for `c`: '/' becomes '-', then lower case. */
  function IdChar(c: char): (r: char)
    ensures r != '/' && !IsUpperAscii(r)
  {
    LowerChar(if c == '/' then '-' else c)
  }

  /** A full path as it appears in an operation id. */
  function IdPath(p: string): (r: string)
    ensures |r| == |p| && forall i :: 0 <= i < |p| ==> r[i] == IdChar(p[i])
  {
    seq(|p|, i requires 0 <= i < |p| => IdChar(p[i]))
  }

  /**
    The anchor id of an operation: the method, '-', and the full path with
    every '/' replaced by '-', all in lower case. So the id is the method in
    lower case, '-', and the path's id characters, and after the method it
    holds no '/' and no upper-case letter.
  */
  function OperationId(verb: string, fullPathName: string): (r: string)
    ensures r == ToLower(verb) + "-" + IdPath(fullPathName)
    ensures forall i :: |verb| <= i < |r| ==> r[i] != '/' && !IsUpperAscii(r[i])
  {
    var r := ToLower(verb + "-" + ReplaceChar(fullPathName, '/', '-'));
    var s := ToLower(verb) + "-" + IdPath(fullPathName);
    assert |r| == |s|;
    forall i | 0 <= i < |r|
      ensures r[i] == s[i]
    {
      if i > |verb| {
        assert (verb + "-" + ReplaceChar(fullPathName, '/', '-'))[i] == ReplaceChar(fullPathName, '/', '-')[i - |verb| - 1];
      }
    }
    r
  }

  /**
    Two operations of one method get the same id exactly when their paths
    agree up to case and up to '/' against '-': "/a-b" and "/a/b" collide.
  */
  lemma OperationIdCollisions(verb: string, p: string, q: string)
    ensures OperationId(verb, p) == OperationId(verb, q) <==>
      |p| == |q| && forall i :: 0 <= i < |p| ==> IdChar(p[i]) == IdChar(q[i])
  {
    var prefix := ToLower(verb) + "-";
    if OperationId(verb, p) == OperationId(verb, q) {
      assert IdPath(p) == OperationId(verb, p)[|prefix|..];
      assert IdPath(q) == OperationId(verb, q)[|prefix|..];
    }
    if |p| == |q| && forall i :: 0 <= i < |p| ==> IdChar(p[i]) == IdChar(q[i]) {
      assert IdPath(p) == IdPath(q);
    }
  }

  /** The display name of an operation: the method, a space and the full path. */
  function OperationName(verb: string, fullPathName: string): (r: string)
    ensures |r| == |verb| + 1 + |fullPathName|
    ensures r[..|verb|] == verb && r[|verb|] == ' ' && r[|verb| + 1..] == fullPathName
  {
    verb + " " + fullPathName
  }

  /**
    Method names hold no space, so an operation's name identifies its
    method and its full path.
  */
  lemma OperationNameInjective(m1: string, p1: string, m2: string, p2: string)
    requires ' ' !in m1 && ' ' !in m2
    requires OperationName(m1, p1) == OperationName(m2, p2)
    ensures m1 == m2 && p1 == p2
  {
    var n := OperationName(m1, p1);
    assert forall i :: 0 <= i < |m1| ==> n[i] == m1[i];
    assert forall i :: 0 <= i < |m2| ==> n[i] == m2[i];
    assert n[|m1|] == ' ' && n[|m2|] == ' ';
    assert |m1| == |m2|;
    assert m1 == n[..|m1|] && p1 == n[|m1| + 1..];
    assert m2 == n[..|m2|] && p2 == n[|m2| + 1..];
  }

  /** The name an `HttpMethod` is shown under is already upper case. */
  lemma MethodNameIsUpper(m: HttpMethod)
    ensures ToUpper(MethodName(m)) == MethodName(m)
  {
    var s := MethodName(m);
    assert forall i :: 0 <= i < |s| ==> !IsLowerAscii(s[i]);
  }

  /** An operation's description, the empty string shown as none. */
  function Description(description: Option<string>): (r: Option<string>)
    ensures r.None? <==> description.None? || description.value == ""
    ensures r.Some? ==> r == description && r.value != ""
  {
    if description == Some("") then None else description
  }

  // ---------------------------------------------------------------- parameter rows

  /** One row of an operation's parameter table; `typeName` is what `type()` returns or throws. */
  datatype ParamDoc = ParamDoc(
    name: string,
    typeName: Result<Option<string>>,
    required: string,
    description: Option<string>)

  /** `doc` shows `param`: its name, its type, "Yes" or "No" as it is required, its description. */
  predicate DescribesParam(doc: ParamDoc, param: Parameter)
  {
    && doc.name == param.name
    && doc.typeName == ParamType(param)
    && (doc.required == "Yes" <==> param.required)
    && (doc.required == "No" <==> !param.required)
    && doc.description == param.description
  }

  /** The parameter table of an operation: one row per parameter, in order. */
  method ParamDocs(parameters: seq<Parameter>) returns (docs: seq<ParamDoc>)
    ensures |docs| == |parameters|
    ensures forall i :: 0 <= i < |docs| ==> DescribesParam(docs[i], parameters[i])
  {
    docs := [];
    for i := 0 to |parameters|
      invariant |docs| == i
      invariant forall j :: 0 <= j < i ==> DescribesParam(docs[j], parameters[j])
    {
      var param := parameters[i];
      var required := if param.required then "Yes" else "No";
      docs := docs + [ParamDoc(param.name, ParamType(param), required, param.description)];
    }
  }

  // ---------------------------------------------------------------- operations

  /** One operation of a profile, reached under its full path with its method. */
  datatype Site = Site(fullPathName: string, verb: HttpMethod, operation: Operation)

  /** The operations of one path, in the path's method order. */
  function PathSites(fullPathName: string, item: PathItem): (r: seq<Site>)
    ensures |r| == |item|
    ensures forall i :: 0 <= i < |r| ==> r[i] == Site(fullPathName, item[i].0, item[i].1)
  {
    seq(|item|, i requires 0 <= i < |item| => Site(fullPathName, item[i].0, item[i].1))
  }

  /** Every operation of a profile, path by path in declaration order. */
  function Sites(basePath: string, paths: seq<(string, PathItem)>): seq<Site>
  {
    if paths == [] then []
    else
      var last := paths[|paths| - 1];
      Sites(basePath, paths[..|paths| - 1]) + PathSites(FullPathName(basePath, last.0), last.1)
  }

  /** One entry of a profile's operation list. */
  datatype OperationDoc = OperationDoc(
    id: string,
    name: string,
    xType: Option<string>,
    summary: Option<string>,
    description: Option<string>,
    paramList: seq<ParamDoc>,
    response: Option<MessageDocument>,
    event: Option<MessageDocument>)

  /** `doc` is the table a possibly absent message has, given that building it did not throw. */
  ghost predicate MessageSlot(defs: Definitions, message: Option<Response>, doc: Option<MessageDocument>)
  {
    match message
    case None => doc.None?
    case Some(m) => DocumentOf(defs, m, Ok(doc))
  }

  /** `doc` is the entry of the operation at `site`. */
  ghost predicate DescribesOperation(defs: Definitions, site: Site, doc: OperationDoc)
  {
    var verb := MethodName(site.verb);
    var op := site.operation;
    && doc.id == OperationId(verb, site.fullPathName)
    && doc.name == OperationName(verb, site.fullPathName)
    && doc.xType == op.xType
    && doc.summary == op.summary
    && doc.description == Description(op.description)
    && |doc.paramList| == |op.parameters|
    && (forall i :: 0 <= i < |doc.paramList| ==> DescribesParam(doc.paramList[i], op.parameters[i]))
    && MessageSlot(defs, ResponseMessage(op), doc.response)
    && MessageSlot(defs, EventMessage(op), doc.event)
  }

  /** Building the response table or the event table of `op` throws `e`. */
  ghost predicate OperationFails(defs: Definitions, op: Operation, e: JavaException)
  {
    || (ResponseMessage(op).Some? && FailsWith(defs, ResponseMessage(op).value, e))
    || (EventMessage(op).Some? && FailsWith(defs, EventMessage(op).value, e))
  }

  /** Building the response table or the event table of `op` throws. */
  ghost predicate OperationBreaks(defs: Definitions, op: Operation)
  {
    || (ResponseMessage(op).Some? && Fails(defs, ResponseMessage(op).value))
    || (EventMessage(op).Some? && Fails(defs, EventMessage(op).value))
  }

  /**
    `docs` has one element per element of `sites`, and `P` holds of the two
    elements at each place (told last place first).
  */
  ghost predicate Pairwise<S, D>(P: (S, D) -> bool, sites: seq<S>, docs: seq<D>)
    decreases |docs|
  {
    && |docs| == |sites|
    && (docs != [] ==>
          && Pairwise(P, sites[..|sites| - 1], docs[..|docs| - 1])
          && P(sites[|sites| - 1], docs[|docs| - 1]))
  }

  /** Place by place: `P` holds of the `i`-th elements. */
  lemma {:induction false} PairwiseAt<S, D>(P: (S, D) -> bool, sites: seq<S>, docs: seq<D>)
    ensures Pairwise(P, sites, docs) <==> |docs| == |sites| && forall i :: 0 <= i < |docs| ==> P(sites[i], docs[i])
    decreases |docs|
  {
    if docs != [] && |docs| == |sites| {
      var n := |docs| - 1;
      PairwiseAt(P, sites[..n], docs[..n]);
      assert forall i :: 0 <= i < n ==> sites[..n][i] == sites[i] && docs[..n][i] == docs[i];
    }
  }

  /** One more pair, for the next element of `sites`, extends the pairing. */
  lemma PairwiseNext<S, D>(P: (S, D) -> bool, sites0: seq<S>, sites: seq<S>, k: nat, docs: seq<D>, doc: D)
    requires k < |sites|
    requires Pairwise(P, sites0 + sites[..k], docs)
    requires P(sites[k], doc)
    ensures Pairwise(P, sites0 + sites[..k + 1], docs + [doc])
  {
    var longer := sites0 + sites[..k + 1];
    assert longer[..|longer| - 1] == sites0 + sites[..k];
    assert longer[|longer| - 1] == sites[k];
    assert (docs + [doc])[..|docs|] == docs;
  }

  /** `docs` are the entries of the operations at `sites`, in order. */
  ghost predicate DescribesOperations(defs: Definitions, sites: seq<Site>, docs: seq<OperationDoc>)
  {
    Pairwise((site, doc) => DescribesOperation(defs, site, doc), sites, docs)
  }

  /** Entry by entry: the `i`-th entry describes the `i`-th operation. */
  lemma DescribesOperationsAt(defs: Definitions, sites: seq<Site>, docs: seq<OperationDoc>)
    ensures DescribesOperations(defs, sites, docs) <==>
      |docs| == |sites| && forall i :: 0 <= i < |docs| ==> DescribesOperation(defs, sites[i], docs[i])
  {
    PairwiseAt((site, doc) => DescribesOperation(defs, site, doc), sites, docs);
  }

  /**
    The entry of one operation. The response table is built before the
    event table, and an exception from either ends the whole run.
  */
  method OperationDocOf(defs: Definitions, site: Site) returns (r: Result<OperationDoc>)
    ensures r.Ok? ==> DescribesOperation(defs, site, r.value)
    ensures r.Throws? ==> OperationFails(defs, site.operation, r.exception)
    ensures r.Throws? <==> OperationBreaks(defs, site.operation)
  {
    var verb := ToUpper(MethodName(site.verb));
    MethodNameIsUpper(site.verb);
    var op := site.operation;
    var paramList := ParamDocs(op.parameters);
    var response := CreateResponseDocument(defs, op);
    if response.Throws? {
      return Throws(response.exception);
    }
    var event := CreateEventDocument(defs, op);
    if event.Throws? {
      return Throws(event.exception);
    }
    r := Ok(OperationDoc(
      OperationId(verb, site.fullPathName),
      OperationName(verb, site.fullPathName),
      op.xType,
      op.summary,
      Description(op.description),
      paramList,
      response.value,
      event.value));
  }

  /**
    The entries of the operations of one path, appended to `docs0`, the
    entries of the operations at `sites0`.
  */
  method AddPathOperations(defs: Definitions, fullPathName: string, item: PathItem, docs0: seq<OperationDoc>,
                           ghost sites0: seq<Site>)
    returns (r: Result<seq<OperationDoc>>)
    requires DescribesOperations(defs, sites0, docs0)
    ensures r.Ok? ==> DescribesOperations(defs, sites0 + PathSites(fullPathName, item), r.value)
    ensures r.Throws? ==> exists i :: 0 <= i < |item| && OperationFails(defs, item[i].1, r.exception)
    ensures r.Throws? <==> exists i :: 0 <= i < |item| && OperationBreaks(defs, item[i].1)
  {
    var docs := docs0;
    ghost var sites := PathSites(fullPathName, item);
    assert sites0 + sites[..0] == sites0;
    for k := 0 to |item|
      invariant DescribesOperations(defs, sites0 + sites[..k], docs)
    {
      var doc := OperationDocOf(defs, Site(fullPathName, item[k].0, item[k].1));
      if doc.Throws? {
        assert OperationBreaks(defs, item[k].1);
        return Throws(doc.exception);
      }
      PairwiseNext((site, doc) => DescribesOperation(defs, site, doc), sites0, sites, k, docs, doc.value);
      docs := docs + [doc.value];
    }
    assert sites[..|item|] == sites;
    PathNotBroken(defs, sites0, fullPathName, item, docs);
    r := Ok(docs);
  }

  /** The operations of a described path did not fail. */
  lemma PathNotBroken(defs: Definitions, sites0: seq<Site>, fullPathName: string, item: PathItem, docs: seq<OperationDoc>)
    requires DescribesOperations(defs, sites0 + PathSites(fullPathName, item), docs)
    ensures forall i :: 0 <= i < |item| ==> !OperationBreaks(defs, item[i].1)
  {
    var sites := sites0 + PathSites(fullPathName, item);
    OperationsNotBroken(defs, sites, docs);
    forall i | 0 <= i < |item|
      ensures !OperationBreaks(defs, item[i].1)
    {
      assert sites[|sites0| + i].operation == item[i].1;
    }
  }

  /** Every operation of `paths` under `basePath`, path by path and method by method. */
  method OperationList(defs: Definitions, basePath: string, paths: seq<(string, PathItem)>)
    returns (r: Result<seq<OperationDoc>>)
    ensures r.Ok? ==> DescribesOperations(defs, Sites(basePath, paths), r.value)
    ensures r.Throws? ==> exists s :: s in Sites(basePath, paths) && OperationFails(defs, s.operation, r.exception)
    ensures r.Throws? <==> exists s :: s in Sites(basePath, paths) && OperationBreaks(defs, s.operation)
  {
    var docs: seq<OperationDoc> := [];
    for j := 0 to |paths|
      invariant DescribesOperations(defs, Sites(basePath, paths[..j]), docs)
    {
      var pathName := paths[j].0;
      var fullPathName := FullPathName(basePath, pathName);
      var added := AddPathOperations(defs, fullPathName, paths[j].1, docs, Sites(basePath, paths[..j]));
      if added.Throws? {
        FailureSite(defs, basePath, paths, j, added.exception);
        return Throws(added.exception);
      }
      SitesStep(basePath, paths, j);
      docs := added.value;
    }
    assert paths[..|paths|] == paths;
    OperationsNotBroken(defs, Sites(basePath, paths), docs);
    r := Ok(docs);
  }

  /** Described operations did not fail: their message tables were built. */
  lemma OperationsNotBroken(defs: Definitions, sites: seq<Site>, docs: seq<OperationDoc>)
    requires DescribesOperations(defs, sites, docs)
    ensures forall s :: s in sites ==> !OperationBreaks(defs, s.operation)
  {
    DescribesOperationsAt(defs, sites, docs);
    forall s | s in sites
      ensures !OperationBreaks(defs, s.operation)
    {
      var i :| 0 <= i < |sites| && sites[i] == s;
      assert DescribesOperation(defs, sites[i], docs[i]);
    }
  }

  /** The sites of one more path follow those of the paths before it. */
  lemma SitesStep(basePath: string, paths: seq<(string, PathItem)>, j: nat)
    requires j < |paths|
    ensures Sites(basePath, paths[..j + 1]) == Sites(basePath, paths[..j]) + PathSites(FullPathName(basePath, paths[j].0), paths[j].1)
  {
    assert paths[..j + 1][..j] == paths[..j];
    assert paths[..j + 1][j] == paths[j];
  }

  /** An operation of the path `paths[j]` that fails is an operation of `paths` that fails. */
  lemma FailureSite(defs: Definitions, basePath: string, paths: seq<(string, PathItem)>, j: nat, e: JavaException)
    requires j < |paths|
    requires exists i :: 0 <= i < |paths[j].1| && OperationFails(defs, paths[j].1[i].1, e)
    ensures exists s :: s in Sites(basePath, paths) && OperationFails(defs, s.operation, e)
  {
    var i :| 0 <= i < |paths[j].1| && OperationFails(defs, paths[j].1[i].1, e);
    var fullPathName := FullPathName(basePath, paths[j].0);
    var site := PathSites(fullPathName, paths[j].1)[i];
    SitesStep(basePath, paths, j);
    SitesPrefix(basePath, paths, j + 1);
    assert site in Sites(basePath, paths[..j + 1]);
    assert site.operation == paths[j].1[i].1;
  }

  /** The sites of a prefix of the paths are a prefix of the sites. */
  lemma {:induction false} SitesPrefix(basePath: string, paths: seq<(string, PathItem)>, j: nat)
    requires j <= |paths|
    ensures forall s :: s in Sites(basePath, paths[..j]) ==> s in Sites(basePath, paths)
    decreases |paths| - j
  {
    if j < |paths| {
      SitesPrefix(basePath, paths, j + 1);
      assert paths[..j + 1][..j] == paths[..j];
    } else {
      assert paths[..j] == paths;
    }
  }

  // ---------------------------------------------------------------- profiles

  /** A profile in the profile list, or a profile with its operation list. */
  datatype ProfileDocs =
    | ProfileHtml(profileName: string)
    | ProfileSpecDocs(
        profileName: string,
        version: Option<string>,
        title: Option<string>,
        description: Option<string>,
        operationList: seq<OperationDoc>)

  /** `doc` documents the profile `profileName` specified by `spec`. */
  ghost predicate DescribesProfile(profileName: string, spec: Spec, doc: ProfileDocs)
  {
    && doc.ProfileSpecDocs?
    && doc.profileName == profileName
    && doc.version == spec.info.version
    && doc.title == spec.info.title
    && doc.description == spec.info.description
    && DescribesOperations(spec.definitions, Sites(BasePath(spec.basePath, profileName), spec.paths), doc.operationList)
  }

  /** Some operation of the profile `spec` fails to build with `e`. */
  ghost predicate ProfileFails(profileName: string, spec: Spec, e: JavaException)
  {
    exists s :: s in Sites(BasePath(spec.basePath, profileName), spec.paths) && OperationFails(spec.definitions, s.operation, e)
  }

  /** Some operation of the profile `spec` fails to build. */
  ghost predicate ProfileBreaks(profileName: string, spec: Spec)
  {
    exists s :: s in Sites(BasePath(spec.basePath, profileName), spec.paths) && OperationBreaks(spec.definitions, s.operation)
  }

  /** The documentation of one profile. */
  method ProfileDocsOf(profileName: string, spec: Spec) returns (r: Result<ProfileDocs>)
    ensures r.Ok? ==> DescribesProfile(profileName, spec, r.value)
    ensures r.Throws? ==> ProfileFails(profileName, spec, r.exception)
    ensures r.Throws? <==> ProfileBreaks(profileName, spec)
  {
    var basePath := BasePath(spec.basePath, profileName);
    var operationList := OperationList(spec.definitions, basePath, spec.paths);
    if operationList.Throws? {
      return Throws(operationList.exception);
    }
    r := Ok(ProfileSpecDocs(profileName, spec.info.version, spec.info.title, spec.info.description, operationList.value));
  }

  // ---------------------------------------------------------------- sorting by name

  /** Ordered by `profileName().compareTo`. */
  predicate SortedByName(s: seq<ProfileDocs>)
  {
    forall i, j :: 0 <= i < j < |s| ==> NotAfter(s[i].profileName, s[j].profileName)
  }

  /** `d` placed into the sorted `s` after every profile whose name is not after its own. */
  function Insert(d: ProfileDocs, s: seq<ProfileDocs>): (r: seq<ProfileDocs>)
    requires SortedByName(s)
    ensures SortedByName(r)
    ensures multiset(r) == multiset(s) + multiset{d}
    decreases |s|
  {
    if s == [] then [d]
    else if !NotAfter(s[0].profileName, d.profileName) then
      NotAfterTotal(s[0].profileName, d.profileName);
      InsertFront(d, s);
      [d] + s
    else
      var rest := Insert(d, s[1..]);
      InsertAfter(s[0], d, s[1..], rest);
      assert s == [s[0]] + s[1..];
      [s[0]] + rest
  }

  lemma InsertFront(d: ProfileDocs, s: seq<ProfileDocs>)
    requires SortedByName(s) && s != [] && NotAfter(d.profileName, s[0].profileName)
    ensures SortedByName([d] + s)
  {
    var r := [d] + s;
    forall i, j | 0 <= i < j < |r|
      ensures NotAfter(r[i].profileName, r[j].profileName)
    {
      assert r[j] == s[j - 1];
      if i == 0 && j > 1 {
        NotAfterTransitive(d.profileName, s[0].profileName, s[j - 1].profileName);
      } else if i > 0 {
        assert r[i] == s[i - 1];
      }
    }
  }

  lemma InsertAfter(first: ProfileDocs, d: ProfileDocs, s: seq<ProfileDocs>, rest: seq<ProfileDocs>)
    requires SortedByName([first] + s) && SortedByName(rest)
    requires NotAfter(first.profileName, d.profileName)
    requires multiset(rest) == multiset(s) + multiset{d}
    ensures SortedByName([first] + rest)
  {
    var r := [first] + rest;
    forall i, j | 0 <= i < j < |r|
      ensures NotAfter(r[i].profileName, r[j].profileName)
    {
      var x := rest[j - 1];
      assert r[j] == x;
      if i == 0 {
        assert r[i] == first;
        assert x in multiset(rest);
        if x != d {
          assert x in multiset(s);
          var k :| 0 <= k < |s| && s[k] == x;
          var fs := [first] + s;
          assert fs[0] == first && fs[k + 1] == x;
          assert NotAfter(fs[0].profileName, fs[k + 1].profileName);
        }
      } else {
        assert r[i] == rest[i - 1];
      }
    }
  }

  /** `Collections.sort` by profile name: an insertion sort, stable on equal names. */
  function SortByName(s: seq<ProfileDocs>): (r: seq<ProfileDocs>)
    ensures SortedByName(r)
    ensures multiset(r) == multiset(s)
  {
    if s == [] then []
    else
      assert s == s[..|s| - 1] + [s[|s| - 1]];
      Insert(s[|s| - 1], SortByName(s[..|s| - 1]))
  }

  /** No two profiles share a name. */
  predicate DistinctNames(s: seq<ProfileDocs>)
  {
    forall i, j :: 0 <= i < j < |s| ==> s[i].profileName != s[j].profileName
  }

  /**
    With distinct names a sorted order is unique, so the sorted lists do not
    depend on the order in which the specification map was iterated.
  */
  lemma {:induction false} SortedUnique(a: seq<ProfileDocs>, b: seq<ProfileDocs>)
    requires SortedByName(a) && SortedByName(b) && DistinctNames(a)
    requires multiset(a) == multiset(b)
    ensures a == b
    decreases |a|
  {
    assert |a| == |multiset(a)| == |multiset(b)| == |b|;
    if a != [] {
      assert a[0] == b[0] by { SameFirst(a, b); }
      assert a[1..] == b[1..] by {
        TailFacts(a);
        TailFacts(b);
        SortedUnique(a[1..], b[1..]);
      }
      assert a == [a[0]] + a[1..] && b == [b[0]] + b[1..];
    }
  }

  /** Dropping the head of a sorted list keeps it sorted, distinct, and removes one occurrence. */
  lemma TailFacts(s: seq<ProfileDocs>)
    requires s != []
    ensures SortedByName(s) ==> SortedByName(s[1..])
    ensures DistinctNames(s) ==> DistinctNames(s[1..])
    ensures multiset(s[1..]) == multiset(s) - multiset{s[0]}
  {
    assert s == [s[0]] + s[1..];
  }

  /** Two sorted permutations of a list with distinct names start alike. */
  lemma SameFirst(a: seq<ProfileDocs>, b: seq<ProfileDocs>)
    requires SortedByName(a) && SortedByName(b) && DistinctNames(a)
    requires multiset(a) == multiset(b) && a != [] && b != []
    ensures a[0] == b[0]
  {
    assert b[0] in multiset(a) && a[0] in multiset(b);
    var i :| 0 <= i < |a| && a[i] == b[0];
    var j :| 0 <= j < |b| && b[j] == a[0];
    NotAfterTotal(a[0].profileName, a[0].profileName);
    NotAfterTotal(b[0].profileName, b[0].profileName);
    assert NotAfter(a[0].profileName, a[i].profileName);
    assert NotAfter(b[0].profileName, b[j].profileName);
    NotAfterAntisymmetric(a[0].profileName, b[0].profileName);
    assert a[i].profileName == a[0].profileName;
  }

  // ---------------------------------------------------------------- processOpts

  /**
    `d` is a profile of `profileSpecs`: its name alone in the profile list,
    or its documentation in the specification list.
  */
  ghost predicate Lists(profileSpecs: map<string, Spec>, d: ProfileDocs, nameOnly: bool)
  {
    && d.profileName in profileSpecs
    && (if nameOnly then d == ProfileHtml(d.profileName)
        else DescribesProfile(d.profileName, profileSpecs[d.profileName], d))
  }

  /** `list` holds one entry for each profile of `profileSpecs` and nothing else. */
  ghost predicate Covers(profileSpecs: map<string, Spec>, list: seq<ProfileDocs>, nameOnly: bool)
  {
    && DistinctNames(list)
    && (forall i :: 0 <= i < |list| ==> Lists(profileSpecs, list[i], nameOnly))
    && (forall name :: name in profileSpecs ==> exists i :: 0 <= i < |list| && list[i].profileName == name)
  }

  /** A permutation of a covering list covers the same profiles. */
  lemma CoversPermutation(profileSpecs: map<string, Spec>, a: seq<ProfileDocs>, b: seq<ProfileDocs>, nameOnly: bool)
    requires multiset(a) == multiset(b) && Covers(profileSpecs, a, nameOnly)
    ensures Covers(profileSpecs, b, nameOnly)
  {
    assert forall i :: 0 <= i < |b| ==> Lists(profileSpecs, b[i], nameOnly) by {
      forall i | 0 <= i < |b|
        ensures Lists(profileSpecs, b[i], nameOnly)
      {
        assert b[i] in multiset(a);
      }
    }
    assert forall name :: name in profileSpecs ==> exists i :: 0 <= i < |b| && b[i].profileName == name by {
      forall name | name in profileSpecs
        ensures exists i :: 0 <= i < |b| && b[i].profileName == name
      {
        var k :| 0 <= k < |a| && a[k].profileName == name;
        assert a[k] in multiset(b);
      }
    }
    DistinctPermutation(a, b);
  }

  /** A permutation of a list with distinct names has distinct names. */
  lemma DistinctPermutation(a: seq<ProfileDocs>, b: seq<ProfileDocs>)
    requires multiset(a) == multiset(b) && DistinctNames(a)
    ensures DistinctNames(b)
  {
    forall i, j | 0 <= i < j < |b|
      ensures b[i].profileName != b[j].profileName
    {
      CountedOnce(a, b, i);
      OnceNotTwice(b, i, j);
      assert b[i] in multiset(a) && b[j] in multiset(a);
      var x :| 0 <= x < |a| && a[x] == b[i];
      var y :| 0 <= y < |a| && a[y] == b[j];
      assert x != y;
    }
  }

  /** In a list with distinct names every entry occurs once, and so it does in a permutation. */
  lemma CountedOnce(a: seq<ProfileDocs>, b: seq<ProfileDocs>, i: int)
    requires DistinctNames(a) && multiset(a) == multiset(b) && 0 <= i < |b|
    ensures multiset(b)[b[i]] == 1
  {
    assert b[i] in multiset(a);
    var x :| 0 <= x < |a| && a[x] == b[i];
    assert a == a[..x] + [a[x]] + a[x + 1..];
    assert forall k :: 0 <= k < |a| && k != x ==> a[k].profileName != a[x].profileName;
    assert b[i] !in a[..x] && b[i] !in a[x + 1..];
  }

  lemma OnceNotTwice(b: seq<ProfileDocs>, i: int, j: int)
    requires 0 <= i < j < |b| && multiset(b)[b[i]] == 1
    ensures b[i] != b[j]
  {
    assert b == b[..j] + [b[j]] + b[j + 1..];
    assert b[i] in b[..j];
    assert multiset(b[..j])[b[i]] >= 1;
  }

  /** The profile list: one entry per profile, sorted by name. */
  method ProfileHtmlList(profileSpecs: map<string, Spec>) returns (list: seq<ProfileDocs>)
    ensures SortedByName(list) && Covers(profileSpecs, list, true)
  {
    var names := HashMapKeys(profileSpecs);
    var unsorted: seq<ProfileDocs> := [];
    for i := 0 to |names|
      invariant |unsorted| == i
      invariant forall j :: 0 <= j < i ==> unsorted[j] == ProfileHtml(names[j])
    {
      unsorted := unsorted + [ProfileHtml(names[i])];
    }
    forall name | name in profileSpecs
      ensures exists i :: 0 <= i < |unsorted| && unsorted[i].profileName == name
    {
      var j :| 0 <= j < |names| && names[j] == name;
      assert unsorted[j].profileName == name;
    }
    list := SortByName(unsorted);
    CoversPermutation(profileSpecs, unsorted, list, true);
  }

  /** The documentation of every profile, in map order, or the first exception. */
  method ProfileDocsList(profileSpecs: map<string, Spec>) returns (r: Result<seq<ProfileDocs>>)
    ensures r.Ok? ==> Covers(profileSpecs, r.value, false)
    ensures r.Throws? ==> exists name :: name in profileSpecs && ProfileFails(name, profileSpecs[name], r.exception)
    ensures r.Throws? <==> exists name :: name in profileSpecs && ProfileBreaks(name, profileSpecs[name])
  {
    var names := HashMapKeys(profileSpecs);
    var list: seq<ProfileDocs> := [];
    for i := 0 to |names|
      invariant |list| == i
      invariant forall j :: 0 <= j < i ==> list[j].profileName == names[j] && Lists(profileSpecs, list[j], false)
      invariant forall j :: 0 <= j < i ==> !ProfileBreaks(names[j], profileSpecs[names[j]])
    {
      var docs := ProfileDocsOf(names[i], profileSpecs[names[i]]);
      if docs.Throws? {
        return Throws(docs.exception);
      }
      list := list + [docs.value];
    }
    forall name | name in profileSpecs
      ensures exists i :: 0 <= i < |list| && list[i].profileName == name
    {
      var j :| 0 <= j < |names| && names[j] == name;
      assert list[j].profileName == name;
    }
    assert forall name :: name in profileSpecs ==> !ProfileBreaks(name, profileSpecs[name]);
    r := Ok(list);
  }

  /** What `processOpts` puts into the template properties. */
  datatype Outputs = Outputs(profileHtmlList: seq<ProfileDocs>, swaggerList: seq<ProfileDocs>)

  /**
    `processOpts`: the profile list and the list of the profiles'
    documentation, each with one entry per profile and sorted by name, or
    the first exception building the documentation throws.
  */
  method ProcessOpts(profileSpecs: map<string, Spec>) returns (r: Result<Outputs>)
    ensures r.Ok? ==>
      && SortedByName(r.value.profileHtmlList) && Covers(profileSpecs, r.value.profileHtmlList, true)
      && SortedByName(r.value.swaggerList) && Covers(profileSpecs, r.value.swaggerList, false)
    ensures r.Throws? ==> exists name :: name in profileSpecs && ProfileFails(name, profileSpecs[name], r.exception)
    ensures r.Throws? <==> exists name :: name in profileSpecs && ProfileBreaks(name, profileSpecs[name])
  {
    var profileHtmlList := ProfileHtmlList(profileSpecs);
    var unsorted := ProfileDocsList(profileSpecs);
    if unsorted.Throws? {
      return Throws(unsorted.exception);
    }
    var swaggerList := SortByName(unsorted.value);
    CoversPermutation(profileSpecs, unsorted.value, swaggerList, false);
    r := Ok(Outputs(profileHtmlList, swaggerList));
  }
}
