/**
 * The prefix export behind GET /streamr/{prefix}: the engine's stream walks
 * every version of every key under the prefix, hands the first version of
 * each key to customToList, and badgerStream concatenates the lists it is
 * sent.
 *
 * The engine's iterator is given as the sequence of version items it visits
 * from its seek position on: keys in order, and within one key the newest
 * version first. The wall clock is the parameter `now` (Unix seconds), and
 * the JSON decode and re-encode of a value through TState is the parameter
 * `normalize`. One `now` serves the whole export, where the engine reads
 * the clock again for each item.
 */
module Export {
  import opened Namespace
  import opened Status

  type Byte = b: int | 0 <= b < 256

  datatype Option<T> = None | Some(value: T)

  /**
   * One version of one key as the iterator presents it; `deleted` is the
   * engine's delete marker and `valueFails` says that item.ValueCopy fails
   * on it (a value-log read error).
   */
  datatype Item = Item(key: string, value: string, userMeta: Byte, version: nat, expiresAt: nat,
                       deleted: bool, valueFails: bool)

  /** One exported pb.KV; `userMeta` is the one-byte slice `[]byte{item.UserMeta()}`. */
  datatype Record = Record(key: string, value: string, userMeta: seq<Byte>, version: nat, expiresAt: nat)

  /** The reply of streamrGet: its status and the records it marshals. */
  datatype ExportReply = ExportReply(status: int, records: seq<Record>)

  /** item.IsDeletedOrExpired(): a delete marker, or a nonzero expiry that is not after `now`. */
  predicate DeletedOrExpired(item: Item, now: nat)
  {
    item.deleted || (item.expiresAt != 0 && item.expiresAt <= now)
  }

  /**
   * The bytes customToList decodes: the value, or nothing when ValueCopy
   * fails, since that error is overwritten before it is tested.
   */
  function ValueRead(item: Item): string
  {
    if item.valueFails then "" else item.value
  }

  /** The pb.KV built from an item. */
  function ToRecord(item: Item, normalize: string -> string): Record
  {
    Record(item.key, normalize(ValueRead(item)), [item.userMeta], item.version, item.expiresAt)
  }

  /** customToList has something to emit: the item under the iterator is live and belongs to `key`. */
  predicate Emits(key: string, itr: seq<Item>, now: nat)
  {
    |itr| > 0 && !DeletedOrExpired(itr[0], now) && itr[0].key == key
  }

  /** The list customToList returns for `key` from the iterator `itr`. */
  function KeyList(key: string, itr: seq<Item>, now: nat, normalize: string -> string): seq<Record>
  {
    if Emits(key, itr, now) then [ToRecord(itr[0], normalize)] else []
  }

  /**
   * customToList: at most one record, built from the item under the iterator
   * (the newest version), and none when that item is deleted, expired or of
   * another key. Every path leaves the loop on its first turn, so the
   * iterator's Next never runs and an older version is never reached.
   */
  method CustomToList(key: string, itr: seq<Item>, now: nat, normalize: string -> string)
    returns (list: seq<Record>)
    ensures |list| <= 1
    ensures |list| == 1 <==> Emits(key, itr, now)
    ensures |list| == 1 ==>
      && list[0].key == key
      && list[0].value == (if itr[0].valueFails then normalize("") else normalize(itr[0].value))
      && list[0].userMeta == [itr[0].userMeta] && list[0].version == itr[0].version
      && list[0].expiresAt == itr[0].expiresAt
    ensures list == KeyList(key, itr, now, normalize)
  {
    list := [];
    for i := 0 to |itr|
      invariant list == []
    {
      var item := itr[i];
      if DeletedOrExpired(item, now) {
        break;
      }
      if key != item.key {
        break;
      }
      list := list + [ToRecord(item, normalize)];
      break;
    }
  }

  /**
   * The records the stream produces from `itr`, where `prev` is the key of
   * the item visited just before: iteration ends at the first key without
   * the prefix, and each item that starts a new key goes through
   * customToList.
   */
  function ExportFrom(prefix: string, prev: Option<string>, itr: seq<Item>, now: nat,
                      normalize: string -> string): seq<Record>
    decreases |itr|
  {
    if |itr| == 0 || !(prefix <= itr[0].key) then []
    else
      (if prev == Some(itr[0].key) then [] else KeyList(itr[0].key, itr, now, normalize))
      + ExportFrom(prefix, Some(itr[0].key), itr[1..], now, normalize)
  }

  /** The records badgerStream(prefix) returns. */
  function Export(prefix: string, itr: seq<Item>, now: nat, normalize: string -> string): seq<Record>
  {
    ExportFrom(prefix, None, itr, now, normalize)
  }

  /** The key of the item visited before position `i`, if any. */
  function PrevKey(itr: seq<Item>, i: nat): Option<string>
    requires i <= |itr|
  {
    if i == 0 then None else Some(itr[i - 1].key)
  }

  /** One turn of the stream: the item at `i` contributes its list if it starts a new key, and the stream moves on. */
  lemma ExportFromStep(prefix: string, itr: seq<Item>, i: nat, now: nat, normalize: string -> string)
    requires i < |itr| && prefix <= itr[i].key
    ensures ExportFrom(prefix, PrevKey(itr, i), itr[i..], now, normalize)
      == (if i > 0 && itr[i - 1].key == itr[i].key then [] else KeyList(itr[i].key, itr[i..], now, normalize))
         + ExportFrom(prefix, PrevKey(itr, i + 1), itr[i + 1..], now, normalize)
  {
    assert itr[i..][0] == itr[i];
    assert itr[i..][1..] == itr[i + 1..];
  }

  /**
   * The loop invariant of badgerStream carries over one turn: the records
   * gathered so far, with this item's list when it starts a new key, followed
   * by what the rest of the stream produces, are still the whole export.
   */
  lemma StreamStep(prefix: string, itr: seq<Item>, i: nat, now: nat, normalize: string -> string,
                   full: seq<Record>)
    requires i < |itr| && prefix <= itr[i].key
    requires full + ExportFrom(prefix, PrevKey(itr, i), itr[i..], now, normalize)
      == Export(prefix, itr, now, normalize)
    ensures (if i == 0 || itr[i - 1].key != itr[i].key then full + KeyList(itr[i].key, itr[i..], now, normalize)
             else full)
            + ExportFrom(prefix, PrevKey(itr, i + 1), itr[i + 1..], now, normalize)
      == Export(prefix, itr, now, normalize)
  {
    var rest := ExportFrom(prefix, PrevKey(itr, i + 1), itr[i + 1..], now, normalize);
    ExportFromStep(prefix, itr, i, now, normalize);
    if i == 0 || itr[i - 1].key != itr[i].key {
      var list := KeyList(itr[i].key, itr[i..], now, normalize);
      assert full + (list + rest) == (full + list) + rest;
    } else {
      assert [] + rest == rest;
    }
  }

  /** badgerStream: runs the stream over the prefix and appends every list it is sent, in order. */
  method BadgerStream(prefix: string, itr: seq<Item>, now: nat, normalize: string -> string)
    returns (full: seq<Record>)
    ensures full == Export(prefix, itr, now, normalize)
  {
    full := [];
    var i := 0;
    while i < |itr| && prefix <= itr[i].key
      invariant 0 <= i <= |itr|
      invariant full + ExportFrom(prefix, PrevKey(itr, i), itr[i..], now, normalize)
        == Export(prefix, itr, now, normalize)
    {
      StreamStep(prefix, itr, i, now, normalize, full);
      if i == 0 || itr[i - 1].key != itr[i].key {
        var list := CustomToList(itr[i].key, itr[i..], now, normalize);
        full := full + list;
      }
      i := i + 1;
    }
    assert ExportFrom(prefix, PrevKey(itr, i), itr[i..], now, normalize) == [];
  }

  /** streamrGet: a prefix in the secret namespace is refused with 403 and nothing is exported. */
  method StreamrGet(prefix: string, itr: seq<Item>, now: nat, normalize: string -> string)
    returns (reply: ExportReply)
    ensures SECRET_PREFIX <= prefix ==> reply == ExportReply(STATUS_FORBIDDEN, [])
    ensures !(SECRET_PREFIX <= prefix) ==> reply == ExportReply(STATUS_OK, Export(prefix, itr, now, normalize))
  {
    SecretNamespaceIsPrefix(prefix);
    if IndexOf(prefix, SECRET_PREFIX) == 0 {
      return ExportReply(STATUS_FORBIDDEN, []);
    }
    var records := BadgerStream(prefix, itr, now, normalize);
    reply := ExportReply(STATUS_OK, records);
  }

  /** Item `i` starts a new key, given that the item before `itr` had key `prev`. */
  predicate StartsKey(prev: Option<string>, itr: seq<Item>, i: int)
  {
    0 <= i < |itr| && (if i == 0 then prev != Some(itr[0].key) else itr[i - 1].key != itr[i].key)
  }

  /** Items 0 to `i` all carry the prefix, so the stream reaches item `i`. */
  predicate Reached(prefix: string, itr: seq<Item>, i: int)
  {
    0 <= i < |itr| && forall j :: 0 <= j <= i ==> prefix <= itr[j].key
  }

  /** Item `i` is one the stream exports: it is reached, starts its key and is live. */
  predicate Exportable(prefix: string, prev: Option<string>, itr: seq<Item>, i: int, now: nat)
  {
    StartsKey(prev, itr, i) && Reached(prefix, itr, i) && !DeletedOrExpired(itr[i], now)
  }

  /** No two records share a key. */
  predicate KeysDistinct(out: seq<Record>)
  {
    forall j, k :: 0 <= j < k < |out| ==> out[j].key != out[k].key
  }

  /** Versions of one key are adjacent in the iteration. */
  ghost predicate Grouped(itr: seq<Item>)
  {
    forall i, j, k :: 0 <= i < j < k < |itr| && itr[i].key == itr[k].key ==> itr[j].key == itr[i].key
  }

  /** Within one key the newest version comes first. */
  ghost predicate NewestFirst(itr: seq<Item>)
  {
    forall i, j :: 0 <= i < j < |itr| && itr[i].key == itr[j].key ==> itr[i].version > itr[j].version
  }

  /** Every exported record is the copy of an exportable item, and so its key carries the prefix. */
  lemma {:induction false} ExportFromSound(prefix: string, prev: Option<string>, itr: seq<Item>, now: nat,
                                          normalize: string -> string, r: Record)
    requires r in ExportFrom(prefix, prev, itr, now, normalize)
    ensures prefix <= r.key
    ensures exists i :: Exportable(prefix, prev, itr, i, now) && r == ToRecord(itr[i], normalize)
    decreases |itr|
  {
    if |itr| > 0 && prefix <= itr[0].key {
      var rest := ExportFrom(prefix, Some(itr[0].key), itr[1..], now, normalize);
      if r in rest {
        ExportFromSound(prefix, Some(itr[0].key), itr[1..], now, normalize, r);
        var i :| Exportable(prefix, Some(itr[0].key), itr[1..], i, now) && r == ToRecord(itr[1..][i], normalize);
        assert StartsKey(prev, itr, i + 1);
        assert Reached(prefix, itr, i + 1) by {
          forall j | 0 <= j <= i + 1 ensures prefix <= itr[j].key {
            if j > 0 {
              assert itr[j] == itr[1..][j - 1];
            }
          }
        }
      } else {
        assert Exportable(prefix, prev, itr, 0, now);
      }
    }
  }

  /** Every exportable item is exported. */
  lemma {:induction false} ExportFromComplete(prefix: string, prev: Option<string>, itr: seq<Item>, now: nat,
                                             normalize: string -> string, i: int)
    requires Exportable(prefix, prev, itr, i, now)
    ensures ToRecord(itr[i], normalize) in ExportFrom(prefix, prev, itr, now, normalize)
    decreases |itr|
  {
    if i > 0 {
      assert itr[1..][i - 1] == itr[i];
      assert Reached(prefix, itr[1..], i - 1) by {
        forall j | 0 <= j <= i - 1 ensures prefix <= itr[1..][j].key {
          assert itr[1..][j] == itr[j + 1];
        }
      }
      ExportFromComplete(prefix, Some(itr[0].key), itr[1..], now, normalize, i - 1);
    }
  }

  /** In a grouped iteration, an item that starts its key is the first item of that key. */
  lemma StartIsFirstOfKey(itr: seq<Item>, i: int)
    requires Grouped(itr) && StartsKey(None, itr, i)
    ensures forall j :: 0 <= j < i ==> itr[j].key != itr[i].key
  {
    forall j | 0 <= j < i ensures itr[j].key != itr[i].key {
      if j < i - 1 {
        var before, here := itr[i - 1].key, itr[j].key;
        assert here == itr[i].key ==> before == here;
      }
    }
  }

  /** After the first item of a key, the rest of a grouped iteration exports no record of that key. */
  lemma RestAvoidsKey(prefix: string, itr: seq<Item>, now: nat, normalize: string -> string, r: Record)
    requires Grouped(itr) && |itr| > 0
    requires r in ExportFrom(prefix, Some(itr[0].key), itr[1..], now, normalize)
    ensures r.key != itr[0].key
  {
    ExportFromSound(prefix, Some(itr[0].key), itr[1..], now, normalize, r);
    var i :| Exportable(prefix, Some(itr[0].key), itr[1..], i, now) && r == ToRecord(itr[1..][i], normalize);
    if i > 0 {
      var before, here := itr[i].key, itr[i + 1].key;
      assert here == itr[0].key ==> before == here;
    }
  }

  /** A grouped iteration exports at most one record per key. */
  lemma {:induction false} ExportFromDistinct(prefix: string, prev: Option<string>, itr: seq<Item>, now: nat,
                                             normalize: string -> string)
    requires Grouped(itr)
    ensures KeysDistinct(ExportFrom(prefix, prev, itr, now, normalize))
    decreases |itr|
  {
    if |itr| > 0 && prefix <= itr[0].key {
      var head := if prev == Some(itr[0].key) then [] else KeyList(itr[0].key, itr, now, normalize);
      var rest := ExportFrom(prefix, Some(itr[0].key), itr[1..], now, normalize);
      var out := head + rest;
      assert out == ExportFrom(prefix, prev, itr, now, normalize);
      assert Grouped(itr[1..]) by {
        forall a, b, c | 0 <= a < b < c < |itr[1..]| && itr[1..][a].key == itr[1..][c].key
          ensures itr[1..][b].key == itr[1..][a].key
        {
          assert itr[a + 1].key == itr[c + 1].key;
        }
      }
      ExportFromDistinct(prefix, Some(itr[0].key), itr[1..], now, normalize);
      forall j, k | 0 <= j < k < |out| ensures out[j].key != out[k].key {
        if j < |head| {
          assert head == [ToRecord(itr[0], normalize)];
          assert out[j].key == itr[0].key;
          assert out[k] == rest[k - |head|] && out[k] in rest;
          RestAvoidsKey(prefix, itr, now, normalize, out[k]);
          assert out[k].key != itr[0].key;
        } else {
          var j', k' := j - |head|, k - |head|;
          assert out[j] == rest[j'] && out[k] == rest[k'];
          assert 0 <= j' < k' < |rest|;
          assert rest[j'].key != rest[k'].key;
        }
      }
    }
  }

  /** In a grouped, newest-first iteration, an item that starts its key has that key's highest version. */
  lemma StartIsNewest(itr: seq<Item>, i: int)
    requires Grouped(itr) && NewestFirst(itr) && StartsKey(None, itr, i)
    ensures forall j :: 0 <= j < |itr| && itr[j].key == itr[i].key ==> itr[j].version <= itr[i].version
  {
    StartIsFirstOfKey(itr, i);
    forall j | 0 <= j < |itr| && itr[j].key == itr[i].key ensures itr[j].version <= itr[i].version {
      assert i <= j;
      if i < j {
        assert itr[i].version > itr[j].version;
      }
    }
  }

  /**
   * In a grouped, newest-first iteration each exported record carries the
   * newest version of its key: no version of that key in the iteration is
   * newer.
   */
  lemma ExportIsNewestVersion(prefix: string, itr: seq<Item>, now: nat, normalize: string -> string, r: Record)
    requires Grouped(itr) && NewestFirst(itr)
    requires r in Export(prefix, itr, now, normalize)
    ensures forall j :: 0 <= j < |itr| && itr[j].key == r.key ==> itr[j].version <= r.version
  {
    ExportFromSound(prefix, None, itr, now, normalize, r);
    var i :| Exportable(prefix, None, itr, i, now) && r == ToRecord(itr[i], normalize);
    StartIsNewest(itr, i);
  }

  /**
   * When the newest version of a key is deleted or expired, the export holds
   * no record of that key, even though an older version may be live.
   */
  lemma DeadNewestHidesKey(prefix: string, itr: seq<Item>, now: nat, normalize: string -> string, i: int)
    requires Grouped(itr) && 0 <= i < |itr| && DeletedOrExpired(itr[i], now)
    requires forall j :: 0 <= j < i ==> itr[j].key != itr[i].key
    ensures forall r :: r in Export(prefix, itr, now, normalize) ==> r.key != itr[i].key
  {
    forall r | r in Export(prefix, itr, now, normalize) ensures r.key != itr[i].key {
      ExportFromSound(prefix, None, itr, now, normalize, r);
      var i2 :| Exportable(prefix, None, itr, i2, now) && r == ToRecord(itr[i2], normalize);
      StartIsFirstOfKey(itr, i2);
    }
  }

  /** Three versions of one key with the newest expired: nothing is exported, not the second-newest. */
  lemma ExpiredNewestExportsNothing(normalize: string -> string)
    ensures Export("t", [Item("tHome", "3", 0, 3, 50, false, false),
                         Item("tHome", "2", 0, 2, 0, false, false),
                         Item("tHome", "1", 0, 1, 0, false, false)], 100, normalize) == []
  {
  }

  /**
   * The refusal is a prefix test on the requested prefix only: a shorter
   * prefix such as "s" is not refused and exports the secret keys under it.
   */
  lemma ShortPrefixExportsSecrets(normalize: string -> string, now: nat)
    ensures !(SECRET_PREFIX <= "s")
    ensures var itr := [Item("secret:apiToken", "abcdef", 0, 1, 0, false, false)];
      Export("s", itr, now, normalize) == [ToRecord(itr[0], normalize)]
  {
  }

  /**
   * A failed value read does not stop the export: the key is still exported,
   * with the re-encoding of an empty decode in place of its value.
   */
  lemma FailedValueReadStillExported(prefix: string, itr: seq<Item>, now: nat, normalize: string -> string, i: int)
    requires Exportable(prefix, None, itr, i, now) && itr[i].valueFails
    ensures exists r :: r in Export(prefix, itr, now, normalize) && r.key == itr[i].key && r.value == normalize("")
  {
    ExportFromComplete(prefix, None, itr, now, normalize, i);
    assert ToRecord(itr[i], normalize).value == normalize("");
  }
}
