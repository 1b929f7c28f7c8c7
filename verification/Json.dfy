/** Decoded JSON values. Encoding a document into a row and decoding it again is the identity. */
module Json {

  /** A key of a JSON object: one constructor for each key the handlers and the repository read or
      write themselves (FNetworkName is "network_name", FSecretId is "secretId", and so on), and
      `Other` for every key they only carry along. */
  datatype Field =
    | FName | FProject | FRegion | FZone | FLocation | FId | FKind | FType | FStatus
    | FCreationTimestamp | FCreateTime | FCreationTime | FStartTime | FDestroyTime
    | FNetwork | FNetworkName | FSubnetwork | FNetworkInterfaces | FRouterName | FClusterName
    | FInstanceName | FUser | FSettings | FIpConfiguration | FPrivateNetwork
    | FAccountId | FUniqueId | FEmail | FServiceAccountEmail | FValidAfterTime
    | FManagedZone | FDnsName | FAdditions | FDeletions
    | FSecretId | FSecretName | FState | FPayload | FData
    | FTopic | FTopicName
    | FPolicy | FBindings | FRole | FMember | FMembers
    | FPeering | FConsumerNetwork
    | Other(text: string)

  datatype Json =
    | Null
    | Bool(b: bool)
    | Number(n: real)
    | Str(s: string)
    | Arr(items: seq<Json>)
    | Obj(fields: map<Field, Json>)

  type Document = map<Field, Json>

  /** The string stored under `key`, or "" when the key is missing or holds another kind of value. */
  function GetString(d: Document, key: Field): string {
    if key in d && d[key].Str? then d[key].s else ""
  }

  /** `d` with `value` under `key`, unless a non-empty string is already there. */
  function WithDefault(d: Document, key: Field, value: string): Document {
    if GetString(d, key) == "" then d[key := Str(value)] else d
  }
}
