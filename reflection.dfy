/** The Django and Django REST framework metadata the generators read,
    as plain input values: what `get_field_info`, `_meta`, the app registry
    and the router registry would report for one snapshot of a project. */
module Reflection {
  import opened Values

  /** A model field. `id` stands for the field's identity (Django fields
      compare by creation counter and model); `default` is `field.default`,
      which every Django field has (NOT_PROVIDED when none was declared);
      `attrs` holds the field's other attributes by name. */
  datatype ModelField = ModelField(id: nat, default: Value, attrs: map<string, Value>)
  {
    /** What `hasattr`/`getattr` see on the field. */
    function Attrs(): map<string, Value> { attrs["default" := default] }
  }

  /** One entry of a model's `_meta.related_objects`: the remote field it
      mirrors and the `related_name` declared on that field (None if none). */
  datatype RelatedObject = RelatedObject(field: ModelField, relatedName: Option<string>)

  /** The target of a forward relation: its `__name__`, and the
      `related_objects` of its concrete model, in order. */
  datatype RelatedModel = RelatedModel(name: string, relatedObjects: seq<RelatedObject>)

  /** A `RelationInfo` from `get_field_info(model).forward_relations`. */
  datatype RelationInfo = RelationInfo(modelField: ModelField, relatedModel: RelatedModel, toMany: bool)

  /** A model class: its identity, `__name__`, and the ordered dicts
      `fields` and `forward_relations` of `get_field_info(model)`. */
  datatype ModelClass = ModelClass(
    id: nat,
    name: string,
    fields: seq<(string, ModelField)>,
    forwardRelations: seq<(string, RelationInfo)>)

  /** An installed app: its `name` and `get_models()`, in order. */
  datatype AppConfig = AppConfig(name: string, models: seq<ModelClass>)

  /** One of a serializer's `_readable_fields`: its `field_name`, whether it
      is a `ResourceRelatedField`, and its attributes by name. */
  datatype SerializerField = SerializerField(fieldName: string, isResourceRelated: bool, attrs: map<string, Value>)

  /** One `router.registry` entry `(name, viewset, single)`: `model` is
      `viewset.queryset.model` (None when that lookup raises), `fields` the
      readable fields of `viewset.serializer_class()`. */
  datatype Registration = Registration(
    name: string,
    model: Option<ModelClass>,
    fields: seq<SerializerField>,
    single: string)
}
