/** The relationship descriptor both generators start from
    (jam/generator.py:57-67, jam/management/commands/jam_generate.py:62-72). */
module Schema {
  import opened Values
  import opened Reflection
  import opened Utils

  /** `{'type': related_model.__name__}`, then `'relatedName'` when
      `get_related_name` gives a truthy name, then `'many': True` for a
      to-many relation. */
  function RelationBase(info: RelationInfo): (b: Bag)
    ensures "type" in b && b["type"] == VStr(info.relatedModel.name)
    ensures "relatedName" in b <==> Truthy(GetRelatedName(info.relatedModel, info.modelField))
    ensures "relatedName" in b ==> b["relatedName"] == VStr(GetRelatedName(info.relatedModel, info.modelField).value)
    ensures "many" in b <==> info.toMany
    ensures "many" in b ==> b["many"] == VBool(true)
    ensures b.Keys <= {"type", "relatedName", "many"}
  {
    var typed := map["type" := VStr(info.relatedModel.name)];
    var relatedName := GetRelatedName(info.relatedModel, info.modelField);
    var named := if Truthy(relatedName) then typed["relatedName" := VStr(relatedName.value)] else typed;
    if info.toMany then named["many" := VBool(true)] else named
  }
}
