/**
 * The point handlers: GET and PUT on /badger/{key} (the general namespace)
 * and on /secret/{key} (the secret namespace). Each handler is a method on
 * the shared store that returns the status and body it writes.
 */
module Handlers {
  import opened Namespace
  import opened ConfigStore
  import opened Status

  /** The status code written and the body printed by a handler. */
  datatype Reply = Reply(status: int, body: string)

  /** The `switch err` of badgerGet and secretGet. */
  function StatusOf(err: Err): (code: int)
    ensures code == STATUS_OK <==> err == NoError
    ensures code == STATUS_NOT_FOUND <==> err == KeyNotFound
    ensures code == STATUS_INTERNAL_SERVER_ERROR <==> err == StoreFault
  {
    match err
    case NoError => STATUS_OK
    case KeyNotFound => STATUS_NOT_FOUND
    case StoreFault => STATUS_INTERNAL_SERVER_ERROR
  }

  /** The reply a GET writes for a lookup answer: the mapped status and the value fetched. */
  function ReplyOf(a: Answer): Reply
  {
    Reply(StatusOf(a.err), a.value)
  }

  /** What badgerGet replies to a GET of `key` on a store. */
  function GeneralGet(kv: map<string, string>, faulty: set<string>, key: string): Reply
  {
    if InSecretNamespace(key) then Reply(STATUS_FORBIDDEN, "")
    else ReplyOf(ValueOf(kv, faulty, key))
  }

  /** What secretGet replies to a GET of `key` on a store. */
  function SecretFetch(kv: map<string, string>, faulty: set<string>, key: string): Reply
  {
    ReplyOf(ValueOf(kv, faulty, SecretKey(key)))
  }

  /** badgerGet: refuses secret keys with 403 before any lookup, else maps getValue's outcome to a status. */
  method BadgerGet(s: Store, key: string) returns (reply: Reply)
    ensures SECRET_PREFIX <= key ==> reply == Reply(STATUS_FORBIDDEN, "")
    ensures !(SECRET_PREFIX <= key) ==>
      var a := ValueOf(s.kv, s.faulty, key);
      reply.body == a.value && reply.status == StatusOf(a.err) && reply.status != STATUS_FORBIDDEN
    ensures reply == GeneralGet(s.kv, s.faulty, key)
  {
    SecretNamespaceIsPrefix(key);
    if IndexOf(key, SECRET_PREFIX) == 0 {
      return Reply(STATUS_FORBIDDEN, "");
    }
    var data, err := s.Get(key);
    reply := Reply(StatusOf(err), data);
  }

  /** badgerPut: stores the body under `key` as it is, with no namespace check, and replies "ok". */
  method BadgerPut(s: Store, key: string, data: string) returns (reply: Reply)
    modifies s
    ensures s.kv == old(s.kv)[key := data]
    ensures reply == Reply(STATUS_OK, "ok")
  {
    s.Put(key, data);
    reply := Reply(STATUS_OK, "ok");
  }

  /** secretPut: stores the body under `"secret:" + key` and replies "ok". */
  method SecretPut(s: Store, key: string, data: string) returns (reply: Reply)
    modifies s
    ensures s.kv == old(s.kv)[SecretKey(key) := data]
    ensures reply == Reply(STATUS_OK, "ok")
  {
    s.Put(SecretKey(key), data);
    reply := Reply(STATUS_OK, "ok");
  }

  /** secretGet: getValue of `"secret:" + key`, with the same status mapping as badgerGet and no refusal. */
  method SecretGet(s: Store, key: string) returns (reply: Reply)
    ensures var a := ValueOf(s.kv, s.faulty, SecretKey(key));
      reply.body == a.value && reply.status == StatusOf(a.err)
    ensures reply.status != STATUS_FORBIDDEN
    ensures reply == SecretFetch(s.kv, s.faulty, key)
  {
    var data, err := s.Get(SecretKey(key));
    reply := Reply(StatusOf(err), data);
  }

  /** A general GET of a secret key is 403 whatever the store holds: it does not depend on the store at all. */
  lemma SecretForbiddenRegardless(kv1: map<string, string>, faulty1: set<string>,
                                  kv2: map<string, string>, faulty2: set<string>, key: string)
    requires SECRET_PREFIX <= key
    ensures GeneralGet(kv1, faulty1, key) == GeneralGet(kv2, faulty2, key) == Reply(STATUS_FORBIDDEN, "")
  {
    SecretNamespaceIsPrefix(key);
  }

  /** The general GET of a key outside the secret namespace: 200 with the direct or default value, 404 with "", or 500. */
  lemma GeneralGetOutcomes(kv: map<string, string>, faulty: set<string>, key: string)
    requires !(SECRET_PREFIX <= key)
    ensures Readable(kv, faulty, key) ==> GeneralGet(kv, faulty, key) == Reply(STATUS_OK, kv[key])
    ensures !Readable(kv, faulty, key) && Readable(kv, faulty, DefaultKey(key))
      ==> GeneralGet(kv, faulty, key) == Reply(STATUS_OK, kv[DefaultKey(key)])
    ensures key !in kv && DefaultKey(key) !in kv && DefaultKey(key) !in faulty
      ==> GeneralGet(kv, faulty, key) == Reply(STATUS_NOT_FOUND, "")
    ensures !Readable(kv, faulty, key) && DefaultKey(key) in faulty
      ==> GeneralGet(kv, faulty, key) == Reply(STATUS_INTERNAL_SERVER_ERROR, "")
  {
    SecretNamespaceIsPrefix(key);
  }

  /**
   * secretPut(k, v) then secretGet(k) yields v with 200, while the general
   * GET of the same stored key, `"secret:" + k`, is refused with 403.
   */
  lemma SecretRoundTrip(kv: map<string, string>, faulty: set<string>, key: string, val: string)
    requires SecretKey(key) !in faulty
    ensures SecretFetch(kv[SecretKey(key) := val], faulty, key) == Reply(STATUS_OK, val)
    ensures GeneralGet(kv[SecretKey(key) := val], faulty, SecretKey(key)) == Reply(STATUS_FORBIDDEN, "")
  {
  }

  /**
   * The secret namespace is closed to general reads only: badgerPut of a key
   * `"secret:" + k` is not refused and is what secretGet(k) then returns.
   */
  lemma GeneralPutReachesSecret(kv: map<string, string>, faulty: set<string>, key: string, val: string)
    requires SECRET_PREFIX <= key && key !in faulty
    ensures SecretFetch(kv[key := val], faulty, key[|SECRET_PREFIX|..]) == Reply(STATUS_OK, val)
  {
    assert SecretKey(key[|SECRET_PREFIX|..]) == key;
  }

  /** Secret writes never change a general GET, since a general key is never a secret key. */
  lemma SecretPutLeavesGeneral(kv: map<string, string>, faulty: set<string>, key: string, val: string, other: string)
    requires !(SECRET_PREFIX <= other)
    ensures GeneralGet(kv[SecretKey(key) := val], faulty, other) == GeneralGet(kv, faulty, other)
  {
    SecretNamespaceIsPrefix(other);
    SecretNamespaceIsPrefix(SecretKey(key));
    assert DefaultKey(other) != SecretKey(key) by { DefaultAndSecretDisjoint(other, key); }
    PutLeavesOthers(kv, faulty, SecretKey(key), val, other);
  }

  /**
   * secretGet(k) falls back to `"default:secret:" + k`, a key outside the
   * secret namespace: a general PUT of it decides what secretGet(k) returns
   * while `"secret:" + k` holds nothing readable, and a general GET reads it.
   */
  lemma GeneralPutSteersSecretDefault(kv: map<string, string>, faulty: set<string>, key: string, val: string)
    requires !Readable(kv, faulty, SecretKey(key)) && DefaultKey(SecretKey(key)) !in faulty
    ensures !(SECRET_PREFIX <= DefaultKey(SecretKey(key)))
    ensures SecretFetch(kv[DefaultKey(SecretKey(key)) := val], faulty, key) == Reply(STATUS_OK, val)
    ensures GeneralGet(kv[DefaultKey(SecretKey(key)) := val], faulty, DefaultKey(SecretKey(key)))
      == Reply(STATUS_OK, val)
  {
    var d := DefaultKey(SecretKey(key));
    SecretNamespaceIsPrefix(d);
    assert SecretKey(key) != d;
  }
}
