/** Names of objects. Everything an application owns lives in one namespace, which is left implicit. */
module Kube {

  datatype Key = Key(apiVersion: string, kind: string, name: string)

  /** A TypedReference; the repository compares references field by field, and sometimes whole. */
  datatype TypedReference = TypedReference(key: Key, uid: string)

  /** A request that works, one the server turns down, and one that takes effect although an error comes back. */
  datatype Call = Works | Rejected | Lost
}
