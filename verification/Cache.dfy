/** Entities shared by the models of the local store and the agent. */
module Cache {

  datatype Option<+T> = None | Some(value: T)

  datatype Result<+T, +E> = Ok(value: T) | Err(error: E)

  /** A content digest. Only equality of digests matters to the protocols. */
  type Digest = nat

  /** The value a map holds for a key, if any: `BTreeMap::get`. */
  function Get<K, V>(m: map<K, V>, k: K): Option<V>
  {
    if k in m then Some(m[k]) else None
  }

  /** An action result as the local index stores it. */
  datatype ActionResult = ActionResult(
    version: nat, action: Digest, metadata: Option<Digest>, outputRoot: Option<Digest>)

  /** The bytes of an action record: the canonical rendering of a result, or anything else. */
  datatype RecordBytes = Canonical(result: ActionResult) | Garbled(tag: nat)

  /** `parse_record`: only version 1, the right action and the canonical rendering are accepted. */
  function ParseRecord(bytes: RecordBytes, action: Digest): Option<ActionResult>
  {
    if bytes.Canonical? && bytes.result.version == 1 && bytes.result.action == action
    then Some(bytes.result)
    else None
  }
}
