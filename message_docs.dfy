/**
  The parameter table of a response or event message
  (`createMessageDocument`, `createResponseDocument`, `createEventDocument`).

  A message schema is resolved to the object whose properties are listed:
  an inline object schema is used as it is; a reference is looked up in the
  definitions table, and a composed model is merged with `getProperties`
  while a concrete model lends its own properties. Anything else gives no
  document at all. The rows are then flattened from level 1 and every row
  is told the table's deepest level.
*/
module MessageDocs {
  import opened JavaLang
  import opened Swagger
  import opened SchemaResolver
  import opened Flattener

  /** Where the properties of a message's table come from. */
  datatype Root =
    | NoDocument
    | InlineRoot(props: MaybeProps)
    | MergedRoot(merged: map<string, Property>)

  /** The instanceof chain of `createMessageDocument`, on values. */
  function ResolveRoot(defs: Definitions, message: Response): (r: Root)
    ensures r.InlineRoot? ==>
      && message.schema.Some?
      && var schema := message.schema.value;
      || (schema.ObjectProperty? && r.props == schema.properties)
      || (&& schema.RefProperty?
          && var m := FindDefinition(defs, schema.simpleRef);
          m.Some? && m.value.ModelImpl? && r.props == m.value.properties && r.props.Props?)
    ensures r.MergedRoot? ==>
      && message.schema.Some? && message.schema.value.RefProperty?
      && var m := FindDefinition(defs, message.schema.value.simpleRef);
      m.Some? && m.value.ComposedModel? && r.merged == Merged(defs, m.value)
  {
    match message.schema
    case None => NoDocument
    case Some(schema) =>
      if schema.ObjectProperty? then InlineRoot(schema.properties)
      else if schema.RefProperty? then
        match FindDefinition(defs, schema.simpleRef)
        case None => NoDocument
        case Some(m) =>
          if m.ComposedModel? then MergedRoot(Merged(defs, m))
          else if m.ModelImpl? && m.properties.Props? then InlineRoot(m.properties)
          else NoDocument
      else NoDocument
  }

  /**
    A message has no table exactly when its schema is missing, is neither an
    object nor a reference, names no definition, or names a model that is
    neither composed nor concrete, or a concrete one with null properties.
    A composed model always gives a table (its merged map is never null).
  */
  lemma NoDocumentCases(defs: Definitions, message: Response)
    ensures ResolveRoot(defs, message) == NoDocument <==>
      || message.schema.None?
      || (!message.schema.value.ObjectProperty? && !message.schema.value.RefProperty?)
      || (message.schema.value.RefProperty? &&
          var m := FindDefinition(defs, message.schema.value.simpleRef);
          || m.None?
          || (!m.value.ComposedModel? && !m.value.ModelImpl?)
          || (m.value.ModelImpl? && m.value.properties.NullProps?))
    ensures message.schema.Some? && message.schema.value.RefProperty? ==>
      var m := FindDefinition(defs, message.schema.value.simpleRef);
      m.Some? && m.value.ComposedModel? ==> ResolveRoot(defs, message) == MergedRoot(Merged(defs, m.value))
  {
  }

  /** `ps` lists every entry of the map `m` once, in some order. */
  predicate EnumeratesMap(ps: PropertyMap, m: map<string, Property>)
  {
    && (forall i, j :: 0 <= i < j < |ps| ==> ps[i].key != ps[j].key)
    && KeySet(ps) == m.Keys
    && (forall i :: 0 <= i < |ps| ==> ps[i].key in m && m[ps[i].key] == ps[i].value)
  }

  /** Iterating a `HashMap`'s entries: every entry once, in the order of its keys. */
  method HashMapEntries(m: map<string, Property>) returns (ps: PropertyMap)
    ensures EnumeratesMap(ps, m)
  {
    var ks := HashMapKeys(m);
    ps := seq(|ks|, i requires 0 <= i < |ks| => Entry(ks[i], m[ks[i]]));
    forall k | k in m
      ensures k in KeySet(ps)
    {
      var i :| 0 <= i < |ks| && ks[i] == k;
      assert ps[i].key == k;
    }
  }

  /** `ps` is an order in which the table's root properties may be walked. */
  predicate RootEntries(root: Root, ps: PropertyMap)
  {
    match root
    case NoDocument => false
    case InlineRoot(NullProps) => ps == []
    case InlineRoot(Props(es)) => ps == es
    case MergedRoot(m) => EnumeratesMap(ps, m)
  }

  /** The document object `createMessageDocument` returns, without the example. */
  datatype MessageDocument = MessageDocument(paramList: seq<ResponseParamDoc>, maxNestLevel: int)

  /** The info of a `new ObjectProperty()`. */
  const EmptyInfo := PropertyInfo(None, None, None, false)

  /**
    `d` is a table of `message`: its rows are those of some walk of the
    resolved root's properties, flattened from level 1, and its deepest
    level is at least 1 and is either 1 or the level of one of its rows.
  */
  ghost predicate Tabulates(defs: Definitions, message: Response, d: MessageDocument)
  {
    && (exists ps :: RootEntries(ResolveRoot(defs, message), ps) && Rows(ps, 1) == Ok(Snapshot(d.paramList)))
    && d.maxNestLevel >= 1
    && (d.maxNestLevel == 1 || exists i :: 0 <= i < |d.paramList| && d.paramList[i].nestLevel == d.maxNestLevel)
  }

  /** Flattening some walk of the resolved root's properties throws `e`. */
  ghost predicate FailsWith(defs: Definitions, message: Response, e: JavaException)
  {
    exists ps :: RootEntries(ResolveRoot(defs, message), ps) && Rows(ps, 1) == Throws(e)
  }

  /** Flattening some walk of the resolved root's properties throws. */
  ghost predicate Fails(defs: Definitions, message: Response)
  {
    exists ps :: RootEntries(ResolveRoot(defs, message), ps) && Rows(ps, 1).Throws?
  }

  /**
    Two walks of one root both flatten or both throw: a merged map's
    entries are the same in any order, and each entry's block throws or not
    on its own.
  */
  lemma WalksAgree(root: Root, ps: PropertyMap, qs: PropertyMap)
    requires RootEntries(root, ps) && RootEntries(root, qs)
    ensures Rows(ps, 1).Ok? == Rows(qs, 1).Ok?
  {
    if root.MergedRoot? {
      RowsOk(ps, 1);
      RowsOk(qs, 1);
      if Rows(ps, 1).Ok? {
        EntriesAlike(ps, qs, root.merged);
      }
      if Rows(qs, 1).Ok? {
        EntriesAlike(qs, ps, root.merged);
      }
    }
  }

  /** One walk that flattens shows that none throws. */
  lemma NoWalkFails(defs: Definitions, message: Response, ps: PropertyMap)
    requires RootEntries(ResolveRoot(defs, message), ps) && Rows(ps, 1).Ok?
    ensures !Fails(defs, message)
  {
    forall qs | RootEntries(ResolveRoot(defs, message), qs)
      ensures Rows(qs, 1).Ok?
    {
      WalksAgree(ResolveRoot(defs, message), ps, qs);
    }
  }

  /** When every entry of one listing of `m` flattens, so does every entry of another. */
  lemma EntriesAlike(ps: PropertyMap, qs: PropertyMap, m: map<string, Property>)
    requires EnumeratesMap(ps, m) && EnumeratesMap(qs, m)
    requires forall i :: 0 <= i < |ps| ==> RowsOf(ps[i].key, ps[i].value, 1).Ok?
    ensures forall j :: 0 <= j < |qs| ==> RowsOf(qs[j].key, qs[j].value, 1).Ok?
  {
    forall j | 0 <= j < |qs|
      ensures RowsOf(qs[j].key, qs[j].value, 1).Ok?
    {
      var k := qs[j].key;
      assert k in KeySet(ps);
      var i :| 0 <= i < |ps| && ps[i].key == k;
      assert ps[i].value == qs[j].value;
    }
  }

  /**
    What `createMessageDocument` may return for `message`: no document
    exactly when the schema resolves to none, otherwise a table of it or the
    exception flattening it throws. It throws exactly when some walk of the
    root's properties fails to flatten.
  */
  ghost predicate DocumentOf(defs: Definitions, message: Response, doc: Result<Option<MessageDocument>>)
  {
    && (doc == Ok(None) <==> ResolveRoot(defs, message) == NoDocument)
    && (doc.Throws? <==> Fails(defs, message))
    && (doc.Throws? ==> FailsWith(defs, message, doc.exception))
    && (doc.Ok? && doc.value.Some? ==> Tabulates(defs, message, doc.value.value))
  }

  /**
    `createMessageDocument`. It gives no document exactly when the schema
    resolves to none; otherwise either the rows of the root properties, in
    pre-order from level 1, each told the table's deepest level (at least
    1), or the exception flattening throws.
  */
  method CreateMessageDocument(defs: Definitions, message: Response) returns (doc: Result<Option<MessageDocument>>)
    ensures DocumentOf(defs, message, doc)
    ensures doc.Ok? && doc.value.Some? ==>
      var d := doc.value.value;
      && (forall i :: 0 <= i < |d.paramList| ==> d.paramList[i].maxNestLevel == d.maxNestLevel)
      && (forall i :: 0 <= i < |d.paramList| ==> d.paramList[i].ColSpan() >= 1)
  {
    if message.schema.None? {
      return Ok(None);
    }
    var schema := message.schema.value;
    var root: Property;
    ghost var ps: PropertyMap;
    if schema.ObjectProperty? {
      root := schema;
      ps := if schema.properties.Props? then schema.properties.entries else [];
    } else if schema.RefProperty? {
      var model := FindDefinition(defs, schema.simpleRef);
      var properties: MaybeProps;
      if model.Some? && model.value.ComposedModel? {
        var merged := GetProperties(defs, model.value);
        var entries := HashMapEntries(merged);
        properties := Props(entries);
      } else if model.Some? && model.value.ModelImpl? {
        properties := model.value.properties;
      } else {
        return Ok(None);
      }
      if properties.NullProps? {
        return Ok(None);
      }
      root := ObjectProperty(properties, EmptyInfo);
      ps := properties.entries;
    } else {
      return Ok(None);
    }
    assert RootEntries(ResolveRoot(defs, message), ps);
    var list := new ParamDocList();
    var props := root.properties;
    if props.Props? && |props.entries| > 0 {
      var thrown := CreateResponseParameterDocument(root, list, 1);
      if thrown.Some? {
        return Throws(thrown.value);
      }
    }
    assert list.docs[0..] == list.docs;
    var maxNestLevel := GetMaxNestLevel(list.docs);
    SetMaxNestLevels(list.docs, maxNestLevel);
    doc := Ok(Some(MessageDocument(list.docs, maxNestLevel)));
    assert Rows(ps, 1) == Ok(Snapshot(list.docs));
    NoWalkFails(defs, message, ps);
  }

  /** The first response registered under `code`, if any. */
  function Lookup(responses: seq<(string, Response)>, code: string): Option<Response>
  {
    if responses == [] then None
    else if responses[0].0 == code then Some(responses[0].1)
    else Lookup(responses[1..], code)
  }

  /** `Lookup` finds a response exactly when some entry has the code, and then the first such entry's. */
  lemma {:induction false} LookupFinds(responses: seq<(string, Response)>, code: string)
    ensures Lookup(responses, code).Some? <==> exists i :: 0 <= i < |responses| && responses[i].0 == code
    ensures Lookup(responses, code).Some? ==>
      exists i :: 0 <= i < |responses| && responses[i] == (code, Lookup(responses, code).value)
        && (forall j :: 0 <= j < i ==> responses[j].0 != code)
  {
    if responses != [] && responses[0].0 != code {
      LookupFinds(responses[1..], code);
      assert forall i :: 0 < i < |responses| ==> responses[i] == responses[1..][i - 1];
      if Lookup(responses, code).Some? {
        var i :| 0 <= i < |responses[1..]| && responses[1..][i] == (code, Lookup(responses, code).value)
          && (forall j :: 0 <= j < i ==> responses[1..][j].0 != code);
        assert responses[i + 1] == (code, Lookup(responses, code).value);
      }
    } else if responses != [] {
      assert responses[0] == (code, Lookup(responses, code).value);
    }
  }

  /** The "200" response of an operation, if it has responses and one of them is "200". */
  function ResponseMessage(operation: Operation): (r: Option<Response>)
    ensures r.Some? <==> operation.responses.Some? && exists i :: 0 <= i < |operation.responses.value| && operation.responses.value[i].0 == "200"
  {
    if operation.responses.None? then None
    else
      LookupFinds(operation.responses.value, "200");
      Lookup(operation.responses.value, "200")
  }

  /** The event message of an operation, if its Device Connect extension declares one. */
  function EventMessage(operation: Operation): (r: Option<Response>)
    ensures r.Some? <==> operation.dconnect.Some? && operation.dconnect.value.eventModel.Some?
  {
    if operation.dconnect.None? then None else operation.dconnect.value.eventModel
  }

  /** `createResponseDocument`: the table of the "200" response, if there is one. */
  method CreateResponseDocument(defs: Definitions, operation: Operation) returns (doc: Result<Option<MessageDocument>>)
    ensures ResponseMessage(operation).None? ==> doc == Ok(None)
    ensures ResponseMessage(operation).Some? ==> DocumentOf(defs, ResponseMessage(operation).value, doc)
  {
    var responses := operation.responses;
    if responses.Some? {
      var response := Lookup(responses.value, "200");
      if response.Some? {
        doc := CreateMessageDocument(defs, response.value);
        return;
      }
    }
    return Ok(None);
  }

  /** `createEventDocument`: the table of the event message of an event API, if it has one. */
  method CreateEventDocument(defs: Definitions, operation: Operation) returns (doc: Result<Option<MessageDocument>>)
    ensures EventMessage(operation).None? ==> doc == Ok(None)
    ensures EventMessage(operation).Some? ==> DocumentOf(defs, EventMessage(operation).value, doc)
  {
    var dConnectOperation := operation.dconnect;
    if dConnectOperation.None? {
      return Ok(None);
    }
    var eventModel := dConnectOperation.value.eventModel;
    if eventModel.None? {
      return Ok(None);
    }
    doc := CreateMessageDocument(defs, eventModel.value);
  }
}
