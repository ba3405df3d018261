/** JSON values and the merge of section 2 of RFC 7396, as the apiserver applies a merge patch. */
module MergePatches {
  datatype Json =
    | Null
    | Bool(b: bool)
    | Num(n: int)
    | Str(s: string)
    | Arr(items: seq<Json>)
    | Obj(members: map<string, Json>)

  function Member(j: Json, name: string): Json {
    if j.Obj? && name in j.members then j.members[name] else Null
  }

  function MergePatch(target: Json, patch: Json): Json
    decreases patch
  {
    if !patch.Obj? then patch
    else
      var kept := if target.Obj? then target.members else map[];
      Obj(map name | name in kept.Keys + patch.members.Keys && !(name in patch.members && patch.members[name].Null?) ::
            if name in patch.members then MergePatch(Member(target, name), patch.members[name]) else kept[name])
  }

  /** A patch leaves alone every member it does not name; a null removes one. */
  lemma {:induction false} PatchTouchesOnlyItsMembers(target: Json, patch: Json, name: string)
    requires target.Obj? && patch.Obj?
    ensures MergePatch(target, patch).Obj?
    ensures name !in patch.members ==> (name in MergePatch(target, patch).members <==> name in target.members)
    ensures name !in patch.members ==> Member(MergePatch(target, patch), name) == Member(target, name)
    ensures name in patch.members && !patch.members[name].Null? ==>
              Member(MergePatch(target, patch), name) == MergePatch(Member(target, name), patch.members[name])
    ensures name in patch.members && patch.members[name].Null? ==> name !in MergePatch(target, patch).members
  {
  }
}
