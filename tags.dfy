/** The pure logic of the system-tag test helpers: validating a tag type,
    the properties a tag listing asks for, finding a tag by display name,
    the body of a tag-creation request and the tag id taken from the
    Content-Location of its response. The WebDAV requests themselves are
    not modelled. */
module Tags {
  import opened Basics
  import opened Strings

  /** The accepted tag types. */
  const Normal: string := "normal"
  const NotUserAssignable: string := "not user-assignable"
  const NotUserVisible: string := "not user-visible"

  /** validateTypeOfTag: the (userVisible, userAssignable) flags of a tag
      type; any other type throws "Unsupported type". */
  function ValidateTypeOfTag(tagType: string): (r: Result<(bool, bool)>)
    ensures r.Ok? <==> tagType in {Normal, NotUserAssignable, NotUserVisible}
    ensures r.Err? ==> r.message == "Unsupported type"
    ensures r.Ok? ==> r.value.0 || r.value.1
    ensures r.Ok? ==> (r.value.0 <==> tagType != NotUserVisible) && (r.value.1 <==> tagType != NotUserAssignable)
  {
    if tagType == Normal then Ok((true, true))
    else if tagType == NotUserAssignable then Ok((true, false))
    else if tagType == NotUserVisible then Ok((false, true))
    else Err("Unsupported type")
  }

  /** The tag type a pair of flags stands for, if any. */
  function TypeOfFlags(flags: (bool, bool)): (t: Option<string>)
    ensures t.None? <==> !flags.0 && !flags.1
  {
    match flags
    case (true, true) => Some(Normal)
    case (true, false) => Some(NotUserAssignable)
    case (false, true) => Some(NotUserVisible)
    case (false, false) => None
  }

  /** Validation and TypeOfFlags are inverse: every accepted type is
      recovered from its flags, and every pair of flags other than
      (false, false) comes from exactly one accepted type. */
  lemma ValidateTypeRoundTrip(tagType: string, flags: (bool, bool))
    ensures ValidateTypeOfTag(tagType).Ok? ==> TypeOfFlags(ValidateTypeOfTag(tagType).value) == Some(tagType)
    ensures TypeOfFlags(flags).Some? ==> ValidateTypeOfTag(TypeOfFlags(flags).value) == Ok(flags)
  {
  }

  const IdProperty: string := "{http://owncloud.org/ns}id"
  const DisplayNameProperty: string := "{http://owncloud.org/ns}display-name"
  const UserVisibleProperty: string := "{http://owncloud.org/ns}user-visible"
  const UserAssignableProperty: string := "{http://owncloud.org/ns}user-assignable"
  const CanAssignProperty: string := "{http://owncloud.org/ns}can-assign"
  const GroupsProperty: string := "{http://owncloud.org/ns}groups"

  const BaseProperties: seq<string> :=
    [IdProperty, DisplayNameProperty, UserVisibleProperty, UserAssignableProperty, CanAssignProperty]

  /** The properties requestTagsForUser asks the PROPFIND for: the base
      five, then the groups exactly when they are wanted. */
  function RequestedProperties(withGroups: bool): (ps: seq<string>)
    ensures |ps| == |BaseProperties| + (if withGroups then 1 else 0)
    ensures ps[..|BaseProperties|] == BaseProperties
    ensures GroupsProperty in ps <==> withGroups
    ensures NoDup(ps)
  {
    if withGroups then BaseProperties + [GroupsProperty] else BaseProperties
  }

  /** The properties of one tag in a listing; a property the server did
      not return is absent. */
  type TagData = map<string, string>

  /** The condition of the search: a non-empty entry whose display name
      is strictly the query. */
  predicate Matches(tag: TagData, displayName: string)
  {
    tag != map[] && DisplayNameProperty in tag && tag[DisplayNameProperty] == displayName
  }

  /** Index of the first matching entry of the listing, if any. */
  function FirstMatch(tagList: seq<(string, TagData)>, displayName: string): (r: Option<nat>)
    ensures r.Some? ==>
      && r.value < |tagList| && Matches(tagList[r.value].1, displayName)
      && forall j :: 0 <= j < r.value ==> !Matches(tagList[j].1, displayName)
    ensures r.None? <==> forall j :: 0 <= j < |tagList| ==> !Matches(tagList[j].1, displayName)
    decreases |tagList|
  {
    if tagList == [] then None
    else if Matches(tagList[0].1, displayName) then Some(0)
    else
      match FirstMatch(tagList[1..], displayName)
      case None => None
      case Some(i) => Some(i + 1)
  }

  /** requestTagByDisplayName, over the listing the PROPFIND returned (one
      entry per path, in response order): the first matching tag, or null. */
  method RequestTagByDisplayName(tagList: seq<(string, TagData)>, displayName: string) returns (r: Option<TagData>)
    ensures r.None? <==> FirstMatch(tagList, displayName).None?
    ensures r.Some? ==> r.value == tagList[FirstMatch(tagList, displayName).value].1
  {
    var k := 0;
    while k < |tagList|
      invariant k <= |tagList|
      invariant forall j :: 0 <= j < k ==> !Matches(tagList[j].1, displayName)
    {
      var tagData := tagList[k].1;
      if tagData != map[] && DisplayNameProperty in tagData && tagData[DisplayNameProperty] == displayName {
        ghost var f := FirstMatch(tagList, displayName);
        assert f.Some? && f.value == k by {
          if f.None? || f.value > k {
            assert Matches(tagList[k].1, displayName);
          }
        }
        return Some(tagData);
      }
      k := k + 1;
    }
    return None;
  }

  /** A value of the createTag request body. */
  datatype BodyValue = Text(text: string) | Flag(flag: bool)

  /** The JSON body of createTag, keyed by field: the name and both flags,
      and the groups exactly when they are given. */
  function CreateTagBody(name: string, userVisible: bool, userAssignable: bool, groups: Option<string>): (body: map<string, BodyValue>)
    ensures body.Keys == {"name", "userVisible", "userAssignable"} + (if groups.Some? then {"groups"} else {})
    ensures body["name"] == Text(name)
    ensures body["userVisible"] == Flag(userVisible)
    ensures body["userAssignable"] == Flag(userAssignable)
    ensures "groups" in body <==> groups.Some?
    ensures groups.Some? ==> body["groups"] == Text(groups.value)
  {
    var base := map["name" := Text(name), "userVisible" := Flag(userVisible), "userAssignable" := Flag(userAssignable)];
    if groups.Some? then base["groups" := Text(groups.value)] else base
  }

  /** What a server reads back from a createTag body: the name, both
      flags and the optional groups, or None for a body that lacks one of
      the required fields or holds a value of the wrong kind. */
  function ParseTagBody(body: map<string, BodyValue>): Option<(string, bool, bool, Option<string>)>
  {
    if "name" in body && "userVisible" in body && "userAssignable" in body
       && body["name"].Text? && body["userVisible"].Flag? && body["userAssignable"].Flag?
       && ("groups" in body ==> body["groups"].Text?)
    then
      Some((body["name"].text, body["userVisible"].flag, body["userAssignable"].flag,
            if "groups" in body then Some(body["groups"].text) else None))
    else None
  }

  /** Every field of createTag reaches the server unchanged, and null
      groups stay absent. */
  lemma CreateTagBodyRoundTrip(name: string, userVisible: bool, userAssignable: bool, groups: Option<string>)
    ensures ParseTagBody(CreateTagBody(name, userVisible, userAssignable, groups)) == Some((name, userVisible, userAssignable, groups))
  {
  }

  /** The lastTagId of createTag: what follows the last '/' of the
      Content-Location URL. Without any '/', strrpos yields false, which
      counts as 0, so the URL loses its first character. */
  function LastTagId(tagUrl: string): (id: string)
    ensures '/' in tagUrl ==>
      && '/' !in id && |id| < |tagUrl| && tagUrl[|tagUrl| - |id| - 1] == '/'
      && tagUrl[|tagUrl| - |id|..] == id
    ensures '/' !in tagUrl ==> id == (if tagUrl == [] then [] else tagUrl[1..])
  {
    match LastIndexOf(tagUrl, '/')
    case Some(i) => tagUrl[i + 1..]
    case None => if tagUrl == [] then [] else tagUrl[1..]
  }

  /** The tag id of a URL built as base + "/" + id is id again, whatever
      the base holds. */
  lemma {:induction false} LastTagIdRoundTrip(base: string, id: string)
    requires '/' !in id
    ensures LastTagId(base + "/" + id) == id
  {
    LastIndexOfBeforeSuffix(base, '/', id);
    var url := base + "/" + id;
    assert url == base + ['/'] + id;
    assert url[|base| + 1..] == id;
  }
}
