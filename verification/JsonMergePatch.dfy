/** JSON values and the merge patch of section 2 of RFC 7396. */
module JsonMergePatch {

  datatype Json = Null | Str(text: string) | Arr(items: seq<Json>) | Obj(fields: map<string, Json>)

  /** A member of an object; a missing member, and any member of a value that is no object, reads as null. */
  function Member(value: Json, name: string): Json {
    if value.Obj? && name in value.fields then value.fields[name] else Null
  }

  /** Applies a patch: null removes a member, an object is merged, and any other value replaces. */
  function MergePatch(target: Json, patch: Json): Json
    decreases patch
  {
    if !patch.Obj? then patch
    else
      var base := if target.Obj? then target.fields else map[];
      Obj(map k | k in base.Keys + patch.fields.Keys && !(k in patch.fields && patch.fields[k].Null?) ::
            if k in patch.fields then MergePatch(Member(target, k), patch.fields[k]) else base[k])
  }

  /** Section 2 of RFC 7396, member by member. */
  lemma MergePatchMember(target: Json, patch: Json, name: string)
    requires patch.Obj?
    ensures Member(MergePatch(target, patch), name) ==
            if name !in patch.fields then Member(target, name)
            else if patch.fields[name].Null? then Null
            else MergePatch(Member(target, name), patch.fields[name])
  {
  }
}
