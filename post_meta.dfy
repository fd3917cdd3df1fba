/** WordPress post meta as the plugin uses it: a store of values keyed by
    (post id, meta key), shared by orders and refund-request posts. */
module PostMeta {

  /** A stored meta value. `update_post_meta` is called with strings (the
      message), `true` (the submitted flag) and an integer (the order id). */
  datatype MetaValue = Str(s: string) | Bool(b: bool) | Int(i: int)

  type Key = (int, string)

  const SubmittedKey := "_replacement_request_submitted"
  const MessageKey := "_replacement_request_message"
  const OrderIdKey := "_order_id"

  /** PHP truthiness of a meta value: the empty string and "0" are falsy. */
  predicate Truthy(v: MetaValue) {
    match v
    case Str(s) => s != "" && s != "0"
    case Bool(b) => b
    case Int(i) => i != 0
  }

  /** `get_post_meta($post, $key, true)`: the stored value, or "" when the key
      was never written. */
  function GetMeta(m: map<Key, MetaValue>, post: int, key: string): (v: MetaValue)
    ensures (post, key) !in m ==> !Truthy(v)
    ensures (post, key) in m ==> v == m[(post, key)]
  {
    if (post, key) in m then m[(post, key)] else Str("")
  }

  /** The replacement-request flag of a post is set. */
  predicate Submitted(m: map<Key, MetaValue>, post: int) {
    Truthy(GetMeta(m, post, SubmittedKey))
  }

  /** The post-meta table, updated in place by `update_post_meta`. */
  class PostMetaStore {
    var entries: map<Key, MetaValue>

    constructor (initial: map<Key, MetaValue>)
      ensures entries == initial
    {
      entries := initial;
    }

    /** `update_post_meta($post, $key, $value)`: overwrites one entry and
        leaves every other entry as it was. */
    method Update(post: int, key: string, value: MetaValue)
      modifies this
      ensures entries == old(entries)[(post, key) := value]
      ensures GetMeta(entries, post, key) == value
    {
      entries := entries[(post, key) := value];
    }
  }
}
