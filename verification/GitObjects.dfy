/** Git objects and their hashes. */
module GitObjects {
  import opened GitTypes

  datatype ObjectType = CommitType | TreeType | BlobType | TagType

  datatype Object = Object(kind: ObjectType, data: Bytes)

  /** The hash of an object, as an injective constructor over its type and content. */
  datatype ObjectId = ObjectId(content: Object)
}
