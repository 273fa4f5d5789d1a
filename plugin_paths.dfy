/**
  The naming helpers of the plugin code generator: a Device Connect path
  "/<profile>/<interface>/<attribute>" (or "/<profile>/<attribute>", or
  "/<profile>") is cut at '/' with Java's `String.split`, and its parts name
  the profile, the interface and the attribute of an API; the API's path
  under its profile and its identifier are put back together from them.
*/
module PluginPaths {
  import opened JavaLang
  import opened Swagger

  // ---------------------------------------------------------------- reading a path

  /** `getProfileNameFromPath`: the second part of the path, if it has one. */
  function ProfileNameFromPath(path: string): (r: Option<string>)
    ensures r.None? <==> |Split(path, '/')| < 2
    ensures r.Some? ==> r.value == Split(path, '/')[1]
  {
    var parts := Split(path, '/');
    if |parts| < 2 then None else Some(parts[1])
  }

  /** `getInterfaceNameFromPath`: the third part, only when the path has exactly four. */
  function InterfaceNameFromPath(path: string): (r: Option<string>)
    ensures r.Some? <==> |Split(path, '/')| == 4
    ensures r.Some? ==> r.value == Split(path, '/')[2]
  {
    var parts := Split(path, '/');
    if |parts| == 4 then Some(parts[2]) else None
  }

  /** `getAttributeNameFromPath`: the last part of a path of three or four parts. */
  function AttributeNameFromPath(path: string): (r: Option<string>)
    ensures r.Some? <==> |Split(path, '/')| == 3 || |Split(path, '/')| == 4
    ensures r.Some? ==> r.value == Split(path, '/')[|Split(path, '/')| - 1]
  {
    var parts := Split(path, '/');
    if |parts| == 4 then Some(parts[3])
    else if |parts| == 3 then Some(parts[2])
    else None
  }

  /** An interface is only named together with an attribute and a profile, and an attribute only with a profile. */
  lemma NamesNest(path: string)
    ensures InterfaceNameFromPath(path).Some? ==> AttributeNameFromPath(path).Some?
    ensures AttributeNameFromPath(path).Some? ==> ProfileNameFromPath(path).Some?
  {
  }

  /** A path without a second part names no profile: "", "/" and a single word among them. */
  lemma NoProfile(word: string)
    requires '/' !in word
    ensures ProfileNameFromPath("") == None
    ensures ProfileNameFromPath("/") == None
    ensures ProfileNameFromPath(word) == None
  {
    assert Pieces("/", '/') == ["", ""] by {
      assert Pieces("", '/') == [""];
    }
    assert DropTrailingEmpty(["", ""]) == [] by {
      assert DropTrailingEmpty([""]) == [];
    }
    if word != "" {
      assert Join([word], '/') == word;
      SplitOfJoin([word], '/');
    }
  }

  // ---------------------------------------------------------------- building an API's path and id

  /** `createApiPath`: "/", then the interface and '/', then the attribute, each when present. */
  function CreateApiPath(interfaceName: Option<string>, attributeName: Option<string>): (r: string)
    ensures |r| >= 1 && r[0] == '/'
    ensures interfaceName.None? && attributeName.None? ==> r == "/"
    ensures interfaceName.Some? && attributeName.Some? ==> r == "/" + interfaceName.value + "/" + attributeName.value
  {
    var withInterface := if interfaceName.Some? then "/" + interfaceName.value + "/" else "/";
    if attributeName.Some? then withInterface + attributeName.value else withInterface
  }

  /** `createApiIdentifier`: the method, " /gotapi/", the profile (or "null") and the API's path. */
  function CreateApiIdentifier(verb: HttpMethod, profileName: Option<string>,
                               interfaceName: Option<string>, attributeName: Option<string>): (r: string)
    ensures |r| > |MethodName(verb)| + 9
    ensures attributeName.None? ==> r[|r| - 1] == '/'
  {
    MethodName(verb) + " /gotapi/" + Str(profileName) + CreateApiPath(interfaceName, attributeName)
  }

  /** A path segment: not empty and without '/'. */
  predicate Segment(s: string)
  {
    s != "" && '/' !in s
  }

  /**
    "/<profile>/<interface>/<attribute>" is read back into its three names,
    its API path is "/<interface>/<attribute>", and its identifier is the
    method followed by the path under "/gotapi".
  */
  lemma FourPartPath(verb: HttpMethod, profile: string, iface: string, attribute: string)
    requires Segment(profile) && Segment(iface) && Segment(attribute)
    ensures var path := "/" + profile + "/" + iface + "/" + attribute;
      && ProfileNameFromPath(path) == Some(profile)
      && InterfaceNameFromPath(path) == Some(iface)
      && AttributeNameFromPath(path) == Some(attribute)
      && "/" + profile + CreateApiPath(InterfaceNameFromPath(path), AttributeNameFromPath(path)) == path
      && CreateApiIdentifier(verb, ProfileNameFromPath(path), InterfaceNameFromPath(path), AttributeNameFromPath(path))
         == MethodName(verb) + " /gotapi" + path
  {
    FourPartNames(profile, iface, attribute);
    FourPartIdentifier(verb, profile, iface, attribute);
  }

  lemma FourPartNames(profile: string, iface: string, attribute: string)
    requires Segment(profile) && Segment(iface) && Segment(attribute)
    ensures var path := "/" + profile + "/" + iface + "/" + attribute;
      && ProfileNameFromPath(path) == Some(profile)
      && InterfaceNameFromPath(path) == Some(iface)
      && AttributeNameFromPath(path) == Some(attribute)
  {
    PathSplitFour(profile, iface, attribute);
  }

  /** The parts of "/<profile>/<interface>/<attribute>". */
  lemma PathSplitFour(profile: string, iface: string, attribute: string)
    requires Segment(profile) && Segment(iface) && Segment(attribute)
    ensures Split("/" + profile + "/" + iface + "/" + attribute, '/') == ["", profile, iface, attribute]
  {
    SplitFour("", profile, iface, attribute, '/');
    assert "" + ['/'] == "/" && ['/'] == "/";
  }

  lemma FourPartIdentifier(verb: HttpMethod, profile: string, iface: string, attribute: string)
    ensures var path := "/" + profile + "/" + iface + "/" + attribute;
      && "/" + profile + CreateApiPath(Some(iface), Some(attribute)) == path
      && CreateApiIdentifier(verb, Some(profile), Some(iface), Some(attribute)) == MethodName(verb) + " /gotapi" + path
  {
    var path := "/" + profile + "/" + iface + "/" + attribute;
    var apiPath := "/" + iface + "/" + attribute;
    assert CreateApiPath(Some(iface), Some(attribute)) == apiPath;
    assert "/" + profile + apiPath == path;
    assert MethodName(verb) + " /gotapi/" + profile + apiPath == MethodName(verb) + " /gotapi" + path;
  }

  /**
    "/<profile>/<attribute>" is read back into a profile and an attribute,
    with no interface, and its identifier is the method followed by the
    path under "/gotapi".
  */
  lemma ThreePartPath(verb: HttpMethod, profile: string, attribute: string)
    requires Segment(profile) && Segment(attribute)
    ensures var path := "/" + profile + "/" + attribute;
      && ProfileNameFromPath(path) == Some(profile)
      && InterfaceNameFromPath(path) == None
      && AttributeNameFromPath(path) == Some(attribute)
      && "/" + profile + CreateApiPath(InterfaceNameFromPath(path), AttributeNameFromPath(path)) == path
      && CreateApiIdentifier(verb, ProfileNameFromPath(path), InterfaceNameFromPath(path), AttributeNameFromPath(path))
         == MethodName(verb) + " /gotapi" + path
  {
    ThreePartNames(profile, attribute);
    ThreePartIdentifier(verb, profile, attribute);
  }

  lemma ThreePartNames(profile: string, attribute: string)
    requires Segment(profile) && Segment(attribute)
    ensures var path := "/" + profile + "/" + attribute;
      && ProfileNameFromPath(path) == Some(profile)
      && InterfaceNameFromPath(path) == None
      && AttributeNameFromPath(path) == Some(attribute)
  {
    PathSplitThree(profile, attribute);
  }

  /** The parts of "/<profile>/<attribute>". */
  lemma PathSplitThree(profile: string, attribute: string)
    requires Segment(profile) && Segment(attribute)
    ensures Split("/" + profile + "/" + attribute, '/') == ["", profile, attribute]
  {
    SplitThree("", profile, attribute, '/');
    assert "" + ['/'] == "/" && ['/'] == "/";
  }

  lemma ThreePartIdentifier(verb: HttpMethod, profile: string, attribute: string)
    ensures var path := "/" + profile + "/" + attribute;
      && "/" + profile + CreateApiPath(None, Some(attribute)) == path
      && CreateApiIdentifier(verb, Some(profile), None, Some(attribute)) == MethodName(verb) + " /gotapi" + path
  {
    var path := "/" + profile + "/" + attribute;
    var apiPath := "/" + attribute;
    assert CreateApiPath(None, Some(attribute)) == apiPath;
    assert "/" + profile + apiPath == path;
    assert MethodName(verb) + " /gotapi/" + profile + apiPath == MethodName(verb) + " /gotapi" + path;
  }

  /**
    "/<profile>" names only the profile; its API path is "/", so its
    identifier ends in a '/' the path does not have.
  */
  lemma TwoPartPath(verb: HttpMethod, profile: string)
    requires Segment(profile)
    ensures var path := "/" + profile;
      && ProfileNameFromPath(path) == Some(profile)
      && InterfaceNameFromPath(path) == None
      && AttributeNameFromPath(path) == None
      && CreateApiIdentifier(verb, ProfileNameFromPath(path), InterfaceNameFromPath(path), AttributeNameFromPath(path))
         == MethodName(verb) + " /gotapi" + path + "/"
  {
    var path := "/" + profile;
    assert Split(path, '/') == ["", profile] by {
      SplitTwo("", profile, '/');
      assert "" + ['/'] == "/";
    }
    assert CreateApiPath(None, None) == "/";
    assert MethodName(verb) + " /gotapi/" + profile + "/" == MethodName(verb) + " /gotapi" + path + "/";
  }

  // ---------------------------------------------------------------- names

  /**
    `getStandardClassName`: the first standard class name that equals the
    profile name up to case, or none if there is none (or no profile name).
  */
  method StandardClassName(standardNames: seq<string>, profileName: Option<string>) returns (r: Option<string>)
    ensures r.None? <==> profileName.None? || forall i :: 0 <= i < |standardNames| ==> !EqualsIgnoreCase(standardNames[i], profileName.value)
    ensures r.Some? ==>
      exists i :: (0 <= i < |standardNames| && standardNames[i] == r.value
        && EqualsIgnoreCase(r.value, profileName.value)
        && forall j :: 0 <= j < i ==> !EqualsIgnoreCase(standardNames[j], profileName.value))
  {
    for i := 0 to |standardNames|
      invariant profileName.Some? ==> forall j :: 0 <= j < i ==> !EqualsIgnoreCase(standardNames[j], profileName.value)
    {
      if profileName.Some? && EqualsIgnoreCase(standardNames[i], profileName.value) {
        return Some(standardNames[i]);
      }
    }
    return None;
  }

  /** A word with its first letter in upper case and every other letter in lower case. */
  function Capitalized(s: string): (r: string)
    requires s != ""
    ensures |r| == |s|
  {
    seq(|s|, i requires 0 <= i < |s| => if i == 0 then UpperChar(s[0]) else LowerChar(s[i]))
  }

  /**
    `toUpperCapital`: the first character upper-cased, then the rest
    lower-cased; the empty string has no first character and throws.
  */
  method ToUpperCapital(str: string) returns (r: Result<string>)
    ensures str == "" <==> r == Throws(StringIndexOutOfBoundsException)
    ensures str != "" ==> r == Ok(Capitalized(str))
  {
    if |str| < 1 {
      return Throws(StringIndexOutOfBoundsException);
    }
    var buf := "";
    buf := buf + ToUpper(str[..1]);
    buf := buf + ToLower(str[1..]);
    assert buf == Capitalized(str) by {
      forall i | 0 <= i < |str|
        ensures buf[i] == Capitalized(str)[i]
      {
        if i > 0 {
          assert buf[i] == ToLower(str[1..])[i - 1];
        }
      }
    }
    r := Ok(buf);
  }

  /** Capitalizing ignores the case a word came in, and capitalizing twice is capitalizing once. */
  lemma CapitalizedCaseInsensitive(a: string, b: string)
    requires a != "" && b != ""
    ensures EqualsIgnoreCase(a, b) ==> Capitalized(a) == Capitalized(b)
    ensures Capitalized(Capitalized(a)) == Capitalized(a)
    ensures EqualsIgnoreCase(Capitalized(a), a)
  {
    if EqualsIgnoreCase(a, b) {
      forall i | 0 <= i < |a|
        ensures Capitalized(a)[i] == Capitalized(b)[i]
      {
        CaseOfChar(a[i], b[i]);
      }
    }
    var c := Capitalized(a);
    forall i | 0 <= i < |a|
      ensures Capitalized(c)[i] == c[i] && LowerChar(c[i]) == LowerChar(a[i])
    {
      CaseOfChar(a[i], a[i]);
    }
  }

  /** ASCII case mapping looks only at the letter, and each mapping is idempotent. */
  lemma CaseOfChar(x: char, y: char)
    ensures LowerChar(x) == LowerChar(y) ==> UpperChar(x) == UpperChar(y)
    ensures UpperChar(UpperChar(x)) == UpperChar(x) && LowerChar(LowerChar(x)) == LowerChar(x)
    ensures LowerChar(UpperChar(x)) == LowerChar(x) && UpperChar(LowerChar(x)) == UpperChar(x)
  {
  }
}
