/** jam/utils.py: the reverse-relation name a forward relation declares. */
module Utils {
  import opened Values
  import opened Reflection

  /** `k` is the first relation record that mirrors `field`. */
  ghost predicate IsFirstMatch(objs: seq<RelatedObject>, field: ModelField, k: int)
  {
    0 <= k < |objs| && objs[k].field.id == field.id && forall j :: 0 <= j < k ==> objs[j].field.id != field.id
  }

  /** What a matching record reports: '+' (no reverse accessor) becomes None. */
  function Reported(relatedName: Option<string>): Option<string>
  {
    if relatedName == Some("+") then None else relatedName
  }

  /** The search loop of `get_related_name` over `related_objects`: the first
      record whose `field` is `field` (same `id`) decides, and no match
      gives None. */
  function FirstRelatedName(objs: seq<RelatedObject>, field: ModelField): (r: Option<string>)
    ensures (forall i :: 0 <= i < |objs| ==> objs[i].field.id != field.id) ==> r == None
    ensures forall k :: IsFirstMatch(objs, field, k) ==> r == Reported(objs[k].relatedName)
  {
    if objs == [] then None
    else if objs[0].field.id == field.id then Reported(objs[0].relatedName)
    else
      assert forall k :: IsFirstMatch(objs, field, k) ==> IsFirstMatch(objs[1..], field, k - 1);
      FirstRelatedName(objs[1..], field)
  }

  /** `get_related_name(model, field)`: searches the related objects of
      `model`'s concrete model for the one mirroring `field`. */
  function GetRelatedName(model: RelatedModel, field: ModelField): Option<string>
  {
    FirstRelatedName(model.relatedObjects, field)
  }

  /** The result is None exactly when no record mirrors the field, or the
      first one that does declares no related name or declares '+'. */
  lemma {:induction false} RelatedNameIsNone(objs: seq<RelatedObject>, field: ModelField)
    ensures FirstRelatedName(objs, field) == None <==>
            (forall i :: 0 <= i < |objs| ==> objs[i].field.id != field.id) ||
            (exists k :: IsFirstMatch(objs, field, k) && objs[k].relatedName in {None, Some("+")})
  {
    if objs != [] && objs[0].field.id != field.id {
      RelatedNameIsNone(objs[1..], field);
      if exists k :: IsFirstMatch(objs[1..], field, k) && objs[1..][k].relatedName in {None, Some("+")} {
        var k :| IsFirstMatch(objs[1..], field, k) && objs[1..][k].relatedName in {None, Some("+")};
        assert IsFirstMatch(objs, field, k + 1);
      }
      if exists k :: IsFirstMatch(objs, field, k) {
        var k :| IsFirstMatch(objs, field, k);
        assert IsFirstMatch(objs[1..], field, k - 1);
      }
      if forall i :: 0 <= i < |objs| - 1 ==> objs[1..][i].field.id != field.id {
        assert forall i :: 0 <= i < |objs| ==> objs[i].field.id != field.id by {
          forall i | 0 <= i < |objs| ensures objs[i].field.id != field.id {
            if i > 0 { assert objs[i] == objs[1..][i - 1]; }
          }
        }
      }
    } else if objs != [] {
      assert IsFirstMatch(objs, field, 0);
    }
  }

  /** Records after the first match are never consulted: replacing them
      does not change the answer. */
  lemma {:induction false} OnlyFirstMatchConsulted(objs: seq<RelatedObject>, rest: seq<RelatedObject>, field: ModelField, k: int)
    requires IsFirstMatch(objs, field, k)
    ensures FirstRelatedName(objs[..k + 1] + rest, field) == FirstRelatedName(objs, field)
  {
    assert IsFirstMatch(objs[..k + 1] + rest, field, k);
  }
}
