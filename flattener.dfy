/**
  Flattening a response or event property map into the rows of its HTML
  parameter table (`createResponseParameterDocument`, `getMaxNestLevel`,
  the annotation loop of `createMessageDocument` and `ResponseParamDoc`).

  The rows come in pre-order: one row per property of a map, in map order,
  each followed directly by the rows of the properties nested in it (an
  object's own properties, or an array's object items' properties) one
  level deeper.
*/
module Flattener {
  import opened JavaLang
  import opened Swagger
  import opened TypeNames

  // ---------------------------------------------------------------- the rows, as values

  /** The constant fields of one `ResponseParamDoc`. */
  datatype Row = Row(
    name: string,
    propType: string,
    format: Option<string>,
    dataType: string,
    title: Option<string>,
    description: Option<string>,
    isRequired: bool,
    nestLevel: int)

  /** The row the constructor makes for property `p` named `name`, given its common name. */
  function RowOf(name: string, p: Property, dataType: string, level: int): Row
  {
    Row(name, TypeOf(p), p.info.format, dataType, p.info.title, p.info.description, p.info.required, level)
  }

  /**
    The rows for the properties of an object, or none when it has a null
    property map (the early return of the source).
  */
  function Children(props: MaybeProps, level: int): Result<seq<Row>>
    decreases props, 2
  {
    match props
    case NullProps => Ok([])
    case Props(ps) => Rows(ps, level)
  }

  /** The rows for a property map, entry after entry; the first exception wins. */
  function Rows(props: PropertyMap, level: int): Result<seq<Row>>
    decreases props, 1
  {
    if props == [] then Ok([])
    else
      var last := props[|props| - 1];
      match Rows(props[..|props| - 1], level)
      case Throws(e) => Throws(e)
      case Ok(front) =>
        match RowsOf(last.key, last.value, level)
        case Throws(e) => Throws(e)
        case Ok(back) => Ok(front + back)
  }

  /** The rows for one entry: its own row, whose common name may throw, then its `Nested` rows. */
  function RowsOf(name: string, p: Property, level: int): Result<seq<Row>>
    decreases p, 4
  {
    match CommonName(p)
    case Throws(e) => Throws(e)
    case Ok(dataType) =>
      match Nested(p, level)
      case Throws(e) => Throws(e)
      case Ok(rs) => Ok([RowOf(name, p, dataType, level)] + rs)
  }

  /**
    The rows that follow a property's own row: for an object its properties
    one level down, and for an array of objects its items' properties one
    level down. A property typed "object" that is not an `ObjectProperty`
    fails the cast; an "array" that is not an `ArrayProperty` has nothing
    nested, and an `ArrayProperty` without items dereferences null (neither
    is reachable, since the common name of both has already thrown).
  */
  function Nested(p: Property, level: int): Result<seq<Row>>
    decreases p, 3
  {
    if TypeOf(p) == "array" then
      if !p.ArrayProperty? then Ok([])
      else if p.items.None? then Throws(NullPointerException)
      else if TypeOf(p.items.value) != "object" then Ok([])
      else if !p.items.value.ObjectProperty? then Throws(ClassCastException)
      else Children(p.items.value.properties, level + 1)
    else if TypeOf(p) == "object" then
      if !p.ObjectProperty? then Throws(ClassCastException)
      else Children(p.properties, level + 1)
    else Ok([])
  }

  /** A map's rows are built exactly when every entry's block is; which entry throws first does not matter. */
  lemma {:induction false} RowsOk(props: PropertyMap, level: int)
    ensures Rows(props, level).Ok? <==> forall i :: 0 <= i < |props| ==> RowsOf(props[i].key, props[i].value, level).Ok?
    decreases |props|
  {
    if props != [] {
      var n := |props| - 1;
      var front := props[..n];
      RowsOk(front, level);
      RowsStep(props, level);
      if Rows(props, level).Ok? {
        forall i | 0 <= i < |props|
          ensures RowsOf(props[i].key, props[i].value, level).Ok?
        {
          if i < n {
            assert front[i] == props[i];
            assert RowsOf(front[i].key, front[i].value, level).Ok?;
          } else {
            assert i == n;
          }
        }
      } else if Rows(front, level).Ok? {
        assert !RowsOf(props[n].key, props[n].value, level).Ok?;
      } else {
        var i :| 0 <= i < n && !RowsOf(front[i].key, front[i].value, level).Ok?;
        assert front[i] == props[i];
      }
    }
  }

  lemma RowsStep(props: PropertyMap, level: int)
    requires props != []
    ensures var n := |props| - 1;
      Rows(props, level).Ok? <==> Rows(props[..n], level).Ok? && RowsOf(props[n].key, props[n].value, level).Ok?
  {
  }

  // ---------------------------------------------------------------- properties of the rows

  /** The names of the rows at exactly `level`, in order. */
  function NamesAt(rs: seq<Row>, level: int): (r: seq<string>)
    ensures |r| <= |rs|
  {
    if rs == [] then []
    else NamesAt(rs[..|rs| - 1], level) + (if rs[|rs| - 1].nestLevel == level then [rs[|rs| - 1].name] else [])
  }

  lemma {:induction false} NamesAtConcat(a: seq<Row>, b: seq<Row>, level: int)
    ensures NamesAt(a + b, level) == NamesAt(a, level) + NamesAt(b, level)
    decreases |b|
  {
    if b == [] {
      assert a + b == a;
    } else {
      var b' := b[..|b| - 1];
      assert (a + b)[..|a + b| - 1] == a + b';
      NamesAtConcat(a, b', level);
    }
  }

  /** Rows deeper than `level` contribute no name at `level`. */
  lemma {:induction false} NamesAtDeeper(rs: seq<Row>, level: int)
    requires forall i :: 0 <= i < |rs| ==> rs[i].nestLevel > level
    ensures NamesAt(rs, level) == []
    decreases |rs|
  {
    if rs != [] {
      NamesAtDeeper(rs[..|rs| - 1], level);
    }
  }

  /**
    The level pattern of a pre-order listing that starts at `level`: it
    starts at `level`, never goes above it, and goes down at most one level
    from one row to the next.
  */
  predicate PreOrderLevels(rs: seq<Row>, level: int)
  {
    && (rs != [] ==> rs[0].nestLevel == level)
    && (forall i :: 0 <= i < |rs| ==> rs[i].nestLevel >= level)
    && (forall i :: 0 < i < |rs| ==> rs[i].nestLevel <= rs[i - 1].nestLevel + 1)
  }

  lemma PreOrderConcat(a: seq<Row>, b: seq<Row>, level: int)
    requires PreOrderLevels(a, level) && PreOrderLevels(b, level)
    ensures PreOrderLevels(a + b, level)
  {
    var c := a + b;
    assert c != [] ==> c[0].nestLevel == level by {
      if a == [] { assert c == b; }
    }
    forall i | 0 <= i < |c|
      ensures c[i].nestLevel >= level
    {
      if i < |a| {
        assert c[i] == a[i];
      } else {
        assert c[i] == b[i - |a|];
      }
    }
    forall i | 0 < i < |c|
      ensures c[i].nestLevel <= c[i - 1].nestLevel + 1
    {
      if i < |a| {
        assert c[i] == a[i] && c[i - 1] == a[i - 1];
      } else if i == |a| {
        assert c[i] == b[0] && c[i - 1] == a[|a| - 1];
      } else {
        assert c[i] == b[i - |a|] && c[i - 1] == b[i - 1 - |a|];
      }
    }
  }

  lemma PreOrderBlock(row: Row, rs: seq<Row>, level: int)
    requires row.nestLevel == level && PreOrderLevels(rs, level + 1)
    ensures PreOrderLevels([row] + rs, level)
  {
    var c := [row] + rs;
    forall i | 0 < i < |c|
      ensures c[i].nestLevel <= c[i - 1].nestLevel + 1
    {
      assert c[i] == rs[i - 1];
      if i > 1 {
        assert c[i - 1] == rs[i - 2];
      }
    }
  }

  /**
    One entry's block: its own row first, at `level`, and everything after
    it deeper; only objects and arrays of objects have anything after it.
  */
  lemma {:induction false} BlockShape(name: string, p: Property, level: int)
    requires RowsOf(name, p, level).Ok?
    ensures var rs := RowsOf(name, p, level).value;
      && |rs| >= 1
      && rs[0] == RowOf(name, p, CommonName(p).value, level)
      && PreOrderLevels(rs, level)
      && (forall i :: 1 <= i < |rs| ==> rs[i].nestLevel > level)
      && NamesAt(rs, level) == [name]
      && (TypeOf(p) != "array" && TypeOf(p) != "object" ==> |rs| == 1)
    decreases p, 4
  {
    var row := RowOf(name, p, CommonName(p).value, level);
    var c := Nested(p, level).value;
    NestedShape(p, level);
    PreOrderBlock(row, c, level);
    NamesAtDeeper(c, level);
    NamesAtConcat([row], c, level);
    assert NamesAt([row], level) == [name] by {
      assert [row][..0] == [];
    }
  }

  lemma {:induction false} NestedShape(p: Property, level: int)
    requires Nested(p, level).Ok?
    ensures PreOrderLevels(Nested(p, level).value, level + 1)
    decreases p, 3
  {
    if TypeOf(p) == "array" && p.ArrayProperty? && p.items.Some? && TypeOf(p.items.value) == "object" {
      ChildrenShape(p.items.value.properties, level + 1);
    } else if TypeOf(p) == "object" {
      ChildrenShape(p.properties, level + 1);
    }
  }

  lemma {:induction false} ChildrenShape(props: MaybeProps, level: int)
    requires Children(props, level).Ok?
    ensures PreOrderLevels(Children(props, level).value, level)
    decreases props, 2
  {
    if props.Props? {
      RowsShape(props.entries, level);
    }
  }

  /**
    The rows of a property map: exactly one row per entry at `level`, named
    by the map's keys in order, every other row deeper, in pre-order.
  */
  lemma {:induction false} RowsShape(props: PropertyMap, level: int)
    requires Rows(props, level).Ok?
    ensures PreOrderLevels(Rows(props, level).value, level)
    ensures NamesAt(Rows(props, level).value, level) == Keys(props)
    decreases props, 1
  {
    if props != [] {
      var init, last := props[..|props| - 1], props[|props| - 1];
      var front, back := Rows(init, level).value, RowsOf(last.key, last.value, level).value;
      assert Rows(props, level).value == front + back;
      assert PreOrderLevels(front, level) && NamesAt(front, level) == Keys(init) by {
        RowsShape(init, level);
      }
      assert PreOrderLevels(back, level) && NamesAt(back, level) == [last.key] by {
        BlockShape(last.key, last.value, level);
      }
      ShapeConcat(front, back, level, Keys(init), last.key);
      KeysNext(props);
    }
  }

  lemma KeysNext(props: PropertyMap)
    requires props != []
    ensures Keys(props) == Keys(props[..|props| - 1]) + [props[|props| - 1].key]
  {
  }

  lemma ShapeConcat(front: seq<Row>, back: seq<Row>, level: int, names: seq<string>, name: string)
    requires PreOrderLevels(front, level) && NamesAt(front, level) == names
    requires PreOrderLevels(back, level) && NamesAt(back, level) == [name]
    ensures PreOrderLevels(front + back, level)
    ensures NamesAt(front + back, level) == names + [name]
  {
    PreOrderConcat(front, back, level);
    NamesAtConcat(front, back, level);
  }

  /** An exception in the rows of a prefix is the exception of the whole map. */
  lemma {:induction false} RowsPrefixThrows(props: PropertyMap, j: nat, level: int)
    requires j <= |props| && Rows(props[..j], level).Throws?
    ensures Rows(props, level) == Rows(props[..j], level)
    decreases |props| - j
  {
    if j < |props| {
      assert props[..j + 1][..j] == props[..j];
      RowsPrefixThrows(props, j + 1, level);
    } else {
      assert props[..j] == props;
    }
  }

  // ---------------------------------------------------------------- the objects

  /** One row of the HTML parameter table of a message. */
  class ResponseParamDoc {
    const name: string
    const propType: string
    const format: Option<string>
    const dataType: string
    const title: Option<string>
    const description: Option<string>
    const isRequired: bool
    const nestLevel: int
    var maxNestLevel: int

    /**
      The source's constructor computes the common name itself and so may
      throw; here the caller computes it first and passes it in.
    */
    constructor (name: string, prop: Property, dataType: string, nestLevel: int)
      requires CommonName(prop) == Ok(dataType)
      ensures AsRow() == RowOf(name, prop, dataType, nestLevel)
      ensures maxNestLevel == 0
    {
      this.name := name;
      this.propType := TypeOf(prop);
      this.format := prop.info.format;
      this.dataType := dataType;
      this.title := prop.info.title;
      this.description := prop.info.description;
      this.isRequired := prop.info.required;
      this.nestLevel := nestLevel;
      this.maxNestLevel := 0;
    }

    function AsRow(): Row
    {
      Row(name, propType, format, dataType, title, description, isRequired, nestLevel)
    }

    function Required(): (r: string)
      ensures r == "Yes" || r == "No"
      ensures r == "Yes" <==> isRequired
    {
      if isRequired then "Yes" else "No"
    }

    /** The number of table columns the row's cell spans. */
    function ColSpan(): (r: int)
      reads this
      ensures nestLevel <= maxNestLevel ==> r >= 1
      ensures r + nestLevel == maxNestLevel + 1
    {
      maxNestLevel - nestLevel + 1
    }

    /** One empty indentation cell per level above the first. */
    method Indents() returns (indents: seq<string>)
      ensures |indents| == if nestLevel <= 1 then 0 else nestLevel - 1
      ensures forall i :: 0 <= i < |indents| ==> indents[i] == ""
    {
      indents := [];
      var cnt := 0;
      while cnt < nestLevel - 1
        invariant 0 <= cnt && (nestLevel > 1 ==> cnt <= nestLevel - 1) && (nestLevel <= 1 ==> cnt == 0)
        invariant |indents| == cnt
        invariant forall i :: 0 <= i < |indents| ==> indents[i] == ""
      {
        indents := indents + [""];
        cnt := cnt + 1;
      }
    }
  }

  /** The rows a list of documents holds. */
  function Snapshot(docs: seq<ResponseParamDoc>): (r: seq<Row>)
    ensures |r| == |docs| && forall i :: 0 <= i < |docs| ==> r[i] == docs[i].AsRow()
  {
    seq(|docs|, i requires 0 <= i < |docs| => docs[i].AsRow())
  }

  /** The list of documents the recursive calls share and append to. */
  class ParamDocList {
    var docs: seq<ResponseParamDoc>

    constructor ()
      ensures docs == []
    {
      docs := [];
    }

    method Add(doc: ResponseParamDoc)
      modifies this
      ensures docs == old(docs) + [doc]
    {
      docs := docs + [doc];
    }
  }

  /**
    `createResponseParameterDocument`: appends the rows of `root`'s
    properties, starting at `nestLevel`, to `list`. It either appends exactly
    the rows `Children` describes, or throws the exception `Children` names.
  */
  method CreateResponseParameterDocument(root: Property, list: ParamDocList, nestLevel: int)
    returns (thrown: Option<JavaException>)
    requires root.ObjectProperty?
    modifies list
    ensures |old(list.docs)| <= |list.docs| && list.docs[..|old(list.docs)|] == old(list.docs)
    ensures forall i :: |old(list.docs)| <= i < |list.docs| ==> fresh(list.docs[i])
    ensures thrown.None? <==> Children(root.properties, nestLevel).Ok?
    ensures thrown.Some? ==> Children(root.properties, nestLevel) == Throws(thrown.value)
    ensures thrown.None? ==> Snapshot(list.docs[|old(list.docs)|..]) == Children(root.properties, nestLevel).value
    decreases root, 1
  {
    thrown := None;
    if root.properties.NullProps? {
      return;
    }
    var props := root.properties.entries;
    ghost var start := list.docs;
    assert props[..0] == [];
    for i := 0 to |props|
      invariant |start| <= |list.docs| && list.docs[..|start|] == start
      invariant forall k :: |start| <= k < |list.docs| ==> fresh(list.docs[k])
      invariant Rows(props[..i], nestLevel).Ok?
      invariant Snapshot(list.docs[|start|..]) == Rows(props[..i], nestLevel).value
    {
      ghost var before := list.docs;
      var sub := CreateEntryDocument(props[i].key, props[i].value, list, nestLevel);
      EntryStep(props, i, nestLevel, start, before, list.docs, sub);
      forall k | |start| <= k < |list.docs|
        ensures fresh(list.docs[k])
      {
        if k < |before| {
          assert list.docs[k] == before[k];
        }
      }
      if sub.Some? {
        return sub;
      }
    }
    assert props[..|props|] == props;
  }

  /**
    One pass of the loop of `createResponseParameterDocument`: the entry's
    own row, whose common name may throw, then the rows nested in it.
  */
  method CreateEntryDocument(propName: string, prop: Property, list: ParamDocList, nestLevel: int)
    returns (thrown: Option<JavaException>)
    modifies list
    ensures |old(list.docs)| <= |list.docs| && list.docs[..|old(list.docs)|] == old(list.docs)
    ensures forall i :: |old(list.docs)| <= i < |list.docs| ==> fresh(list.docs[i])
    ensures thrown.None? <==> RowsOf(propName, prop, nestLevel).Ok?
    ensures thrown.Some? ==> RowsOf(propName, prop, nestLevel) == Throws(thrown.value)
    ensures thrown.None? ==> Snapshot(list.docs[|old(list.docs)|..]) == RowsOf(propName, prop, nestLevel).value
    decreases prop, 3
  {
    var dataType := CommonName(prop);
    if dataType.Throws? {
      assert list.docs[..|list.docs|] == list.docs;
      return Some(dataType.exception);
    }
    ghost var before := list.docs;
    var paramDoc := new ResponseParamDoc(propName, prop, dataType.value, nestLevel);
    list.Add(paramDoc);
    thrown := CreateNestedDocument(prop, list, nestLevel);
    SnapshotSplit(before, list.docs, paramDoc);
    forall k | |before| <= k < |list.docs|
      ensures fresh(list.docs[k])
    {
      if k == |before| {
        assert list.docs[k] == paramDoc;
      }
    }
  }

  /**
    The branches after `paramDocList.add` in the loop of
    `createResponseParameterDocument`: the recursive call for an object, or
    for an array whose items are objects, and the casts and the item
    dereference on the way.
  */
  method CreateNestedDocument(prop: Property, list: ParamDocList, nestLevel: int)
    returns (thrown: Option<JavaException>)
    modifies list
    ensures |old(list.docs)| <= |list.docs| && list.docs[..|old(list.docs)|] == old(list.docs)
    ensures forall i :: |old(list.docs)| <= i < |list.docs| ==> fresh(list.docs[i])
    ensures thrown.None? <==> Nested(prop, nestLevel).Ok?
    ensures thrown.Some? ==> Nested(prop, nestLevel) == Throws(thrown.value)
    ensures thrown.None? ==> Snapshot(list.docs[|old(list.docs)|..]) == Nested(prop, nestLevel).value
    decreases prop, 2
  {
    thrown := None;
    assert list.docs[|list.docs|..] == [];
    if TypeOf(prop) == "array" {
      if prop.ArrayProperty? {
        var itemsProp := prop.items;
        if itemsProp.None? {
          thrown := Some(NullPointerException);
        } else if TypeOf(itemsProp.value) == "object" {
          if !itemsProp.value.ObjectProperty? {
            thrown := Some(ClassCastException);
          } else {
            thrown := CreateResponseParameterDocument(itemsProp.value, list, nestLevel + 1);
          }
        }
      }
    } else if TypeOf(prop) == "object" {
      if !prop.ObjectProperty? {
        thrown := Some(ClassCastException);
      } else {
        thrown := CreateResponseParameterDocument(prop, list, nestLevel + 1);
      }
    }
  }

  /** One pass of the loop of `CreateResponseParameterDocument`, told in terms of `Rows`. */
  lemma EntryStep(props: PropertyMap, i: nat, level: int, start: seq<ResponseParamDoc>,
                  before: seq<ResponseParamDoc>, after: seq<ResponseParamDoc>, sub: Option<JavaException>)
    requires i < |props| && Rows(props[..i], level).Ok?
    requires |start| <= |before| && before[..|start|] == start
    requires Snapshot(before[|start|..]) == Rows(props[..i], level).value
    requires |before| <= |after| && after[..|before|] == before
    requires sub.None? <==> RowsOf(props[i].key, props[i].value, level).Ok?
    requires sub.Some? ==> RowsOf(props[i].key, props[i].value, level) == Throws(sub.value)
    requires sub.None? ==> Snapshot(after[|before|..]) == RowsOf(props[i].key, props[i].value, level).value
    ensures |start| <= |after| && after[..|start|] == start
    ensures sub.Some? ==> Rows(props, level) == Throws(sub.value)
    ensures sub.None? ==> Rows(props[..i + 1], level).Ok? && Snapshot(after[|start|..]) == Rows(props[..i + 1], level).value
  {
    assert after[..|start|] == after[..|before|][..|start|];
    RowsNext(props, i, level);
    if sub.Some? {
      RowsPrefixThrows(props, i + 1, level);
    } else {
      assert after[|start|..] == before[|start|..] + after[|before|..];
      SnapshotConcat(before[|start|..], after[|before|..]);
    }
  }

  /** The rows of one more entry: those of the entries before it, then its own block. */
  lemma RowsNext(props: PropertyMap, i: nat, level: int)
    requires i < |props| && Rows(props[..i], level).Ok?
    ensures Rows(props[..i + 1], level) ==
      match RowsOf(props[i].key, props[i].value, level)
      case Throws(e) => Throws(e)
      case Ok(back) => Ok(Rows(props[..i], level).value + back)
  {
    assert props[..i + 1][..i] == props[..i];
    assert props[..i + 1][i] == props[i];
  }

  lemma SnapshotConcat(a: seq<ResponseParamDoc>, b: seq<ResponseParamDoc>)
    ensures Snapshot(a + b) == Snapshot(a) + Snapshot(b)
  {
    assert forall i :: 0 <= i < |b| ==> (a + b)[|a| + i] == b[i];
  }

  lemma SnapshotSplit(before: seq<ResponseParamDoc>, after: seq<ResponseParamDoc>, doc: ResponseParamDoc)
    requires |before| + 1 <= |after| && after[..|before| + 1] == before + [doc]
    ensures after[..|before|] == before
    ensures Snapshot(after[|before|..]) == [doc.AsRow()] + Snapshot(after[|before| + 1..])
  {
    assert after[|before|..] == [doc] + after[|before| + 1..];
    SnapshotCons(doc, after[|before| + 1..]);
    assert after[..|before|] == after[..|before| + 1][..|before|];
  }

  lemma SnapshotCons(doc: ResponseParamDoc, rest: seq<ResponseParamDoc>)
    ensures Snapshot([doc] + rest) == [doc.AsRow()] + Snapshot(rest)
  {
    var docs := [doc] + rest;
    var rows := [doc.AsRow()] + Snapshot(rest);
    assert |Snapshot(docs)| == |rows|;
    forall i | 0 <= i < |docs| ensures Snapshot(docs)[i] == rows[i] {
      if i > 0 {
        assert docs[i] == rest[i - 1];
      }
    }
  }

  // ---------------------------------------------------------------- the annotation pass

  /** `getMaxNestLevel`: the deepest level among the rows, and at least 1. */
  method GetMaxNestLevel(paramDocList: seq<ResponseParamDoc>) returns (level: int)
    ensures level >= 1
    ensures forall i :: 0 <= i < |paramDocList| ==> paramDocList[i].nestLevel <= level
    ensures level == 1 || exists i :: 0 <= i < |paramDocList| && paramDocList[i].nestLevel == level
  {
    level := 1;
    for k := 0 to |paramDocList|
      invariant level >= 1
      invariant forall i :: 0 <= i < k ==> paramDocList[i].nestLevel <= level
      invariant level == 1 || exists i :: 0 <= i < k && paramDocList[i].nestLevel == level
    {
      if level < paramDocList[k].nestLevel {
        level := paramDocList[k].nestLevel;
      }
    }
  }

  /** The loop that hands every row the table's maximum level. */
  method SetMaxNestLevels(paramDocList: seq<ResponseParamDoc>, maxNestLevel: int)
    modifies set i | 0 <= i < |paramDocList| :: paramDocList[i]
    ensures forall i :: 0 <= i < |paramDocList| ==> paramDocList[i].maxNestLevel == maxNestLevel
  {
    for k := 0 to |paramDocList|
      invariant forall i :: 0 <= i < k ==> paramDocList[i].maxNestLevel == maxNestLevel
    {
      paramDocList[k].maxNestLevel := maxNestLevel;
    }
  }
}
