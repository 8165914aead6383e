/** storage/store.go: the composite keys every row is stored under. */
module Keys {
  import opened Bytes
  import opened Flake

  type PrefixTable = x: int | 0 <= x < 0x1_0000_0000
  type Uuid = s: seq<byte> | |s| == 16 witness seq(16, _ => 0)

  const NIL_UUID: Uuid := seq(16, _ => 0)

  const TABLE_ENTRY: PrefixTable := 3
  const TABLE_REVERSE_ENTRY_INDEX: PrefixTable := 5
  const TABLE_INDEX_CACHE: PrefixTable := 6
  const TABLE_PROFILE: PrefixTable := 100
  const TABLE_OAUTH_TWITTER: PrefixTable := 104
  const TABLE_OAUTH_GOOGLE: PrefixTable := 105
  const TABLE_JOB_FEED: PrefixTable := 200
  const TABLE_JOB_RUNNING: PrefixTable := 201
  const TABLE_JOB_HISTORY: PrefixTable := 202

  /** The five implementations of the Key interface. */
  datatype Key =
    | Table(table: PrefixTable)
    | MetaKey(table: PrefixTable, meta: text)
    | FlakeKey(table: PrefixTable, id: Id)
    | UUIDKey(table: PrefixTable, uuid: Uuid)
    | UUIDFlakeKey(table: PrefixTable, uuid: Uuid, id: Id)
  {
    function Bytes(): seq<byte> {
      match this
      case Table(t) => BigEndian(t, 4)
      case MetaKey(t, meta) => BigEndian(t, 4) + meta
      case FlakeKey(t, id) => BigEndian(t, 4) + id
      case UUIDKey(t, uuid) => BigEndian(t, 4) + uuid
      case UUIDFlakeKey(t, uuid, id) => BigEndian(t, 4) + uuid + id
    }

    function Len(): nat {
      match this
      case Table(_) => 4
      case MetaKey(_, meta) => 4 + |meta|
      case FlakeKey(_, id) => 4 + |id|
      case UUIDKey(_, uuid) => |uuid| + 4
      case UUIDFlakeKey(_, uuid, id) => |uuid| + 4 + |id|
    }

    function Prefix(): Key {
      match this
      case UUIDFlakeKey(t, uuid, _) => UUIDKey(t, uuid)
      case _ => Table(table)
    }

    function String(): text {
      match this
      case MetaKey(t, meta) => EncodeHex(Table(t).Bytes()) + meta
      case _ => EncodeHex(Bytes())
    }
  }

  lemma TableBytes(t1: PrefixTable, t2: PrefixTable)
    ensures BigEndian(t1, 4) == BigEndian(t2, 4) <==> t1 == t2
  {
    PowersOf256();
    BigEndianOrder(t1, t2, 4);
  }

  /** What follows the table bytes. */
  function Rest(k: Key): seq<byte> {
    match k
    case Table(_) => []
    case MetaKey(_, meta) => meta
    case FlakeKey(_, id) => id
    case UUIDKey(_, uuid) => uuid
    case UUIDFlakeKey(_, uuid, id) => uuid + id
  }

  lemma BytesSplit(k: Key)
    ensures k.Bytes() == BigEndian(k.table, 4) + Rest(k)
    ensures k.Bytes()[..4] == BigEndian(k.table, 4) && k.Bytes()[4..] == Rest(k)
    ensures |k.Bytes()| == k.Len()
  {
    assert k.Bytes() == BigEndian(k.table, 4) + Rest(k);
  }

  /** Equal bytes come from one table, and within a kind from one key. */
  lemma BytesInjective(k1: Key, k2: Key)
    requires k1.Bytes() == k2.Bytes()
    ensures k1.table == k2.table
    ensures k1.Table? && k2.Table? ==> k1 == k2
    ensures k1.MetaKey? && k2.MetaKey? ==> k1 == k2
    ensures k1.FlakeKey? && k2.FlakeKey? ==> k1 == k2
    ensures k1.UUIDKey? && k2.UUIDKey? ==> k1 == k2
    ensures k1.UUIDFlakeKey? && k2.UUIDFlakeKey? ==> k1 == k2
  {
    BytesSplit(k1);
    BytesSplit(k2);
    TableBytes(k1.table, k2.table);
    if k1.UUIDFlakeKey? && k2.UUIDFlakeKey? {
      assert Rest(k1)[..16] == k1.uuid && Rest(k1)[16..] == k1.id;
      assert Rest(k2)[..16] == k2.uuid && Rest(k2)[16..] == k2.id;
    }
  }

  /** A table scan sees a key iff the key belongs to the table. */
  lemma TablePrefix(t: PrefixTable, k: Key)
    ensures Table(t).Bytes() <= k.Bytes() <==> t == k.table
  {
    BytesSplit(k);
    TableBytes(t, k.table);
  }

  /** A user scan sees an index key iff table and user agree. */
  lemma UserPrefix(t: PrefixTable, u: Uuid, k: Key)
    requires k.UUIDFlakeKey?
    ensures UUIDKey(t, u).Bytes() <= k.Bytes() <==> t == k.table && u == k.uuid
  {
    var p := UUIDKey(t, u);
    assert k.Bytes()[..20] == UUIDKey(k.table, k.uuid).Bytes();
    if p.Bytes() == UUIDKey(k.table, k.uuid).Bytes() {
      BytesInjective(p, UUIDKey(k.table, k.uuid));
    }
  }

  /** Every key lies under its own Prefix(). */
  lemma UnderOwnPrefix(k: Key)
    ensures k.Prefix().Bytes() <= k.Bytes()
  {
    if k.UUIDFlakeKey? {
      UserPrefix(k.table, k.uuid, k);
    } else {
      TablePrefix(k.table, k);
    }
  }

  /** Keys of one table and shape sort as their ids do. */
  lemma FlakeKeyOrder(t: PrefixTable, a: Id, b: Id)
    ensures LexLess(FlakeKey(t, a).Bytes(), FlakeKey(t, b).Bytes()) <==> LexLess(a, b)
  {
    LexCommonPrefix(BigEndian(t, 4), a, b);
  }

  lemma UUIDFlakeKeyOrder(t: PrefixTable, u: Uuid, a: Id, b: Id)
    ensures LexLess(UUIDFlakeKey(t, u, a).Bytes(), UUIDFlakeKey(t, u, b).Bytes()) <==> LexLess(a, b)
  {
    LexCommonPrefix(BigEndian(t, 4) + u, a, b);
  }

  /** Decoding the string of a key gives its bytes back; for a MetaKey, whose string ends
      in the raw meta text, exactly when that text is empty. */
  lemma StringDecodes(k: Key)
    ensures !k.MetaKey? ==> DecodeHex(k.String()) == Decoded(k.Bytes(), true)
    ensures k.MetaKey? ==> (DecodeHex(k.String()).bytes == k.Bytes() <==> k.meta == [])
    ensures k.MetaKey? ==> DecodeHex(k.String()).bytes == BigEndian(k.table, 4) + DecodeHex(k.meta).bytes
  {
    if k.MetaKey? {
      DecodeAfterEncode(Table(k.table).Bytes(), k.meta);
      assert DecodeHex(k.String()).bytes[4..] == DecodeHex(k.meta).bytes && k.Bytes()[4..] == k.meta;
    } else {
      HexRoundTrip(k.Bytes());
    }
  }

  /** So the string names the key, within a kind. */
  lemma StringInjective(k1: Key, k2: Key)
    requires k1.String() == k2.String()
    ensures k1.FlakeKey? && k2.FlakeKey? ==> k1 == k2
    ensures k1.UUIDKey? && k2.UUIDKey? ==> k1 == k2
    ensures k1.UUIDFlakeKey? && k2.UUIDFlakeKey? ==> k1 == k2
    ensures k1.MetaKey? && k2.MetaKey? ==> k1 == k2
  {
    StringDecodes(k1);
    StringDecodes(k2);
    if !k1.MetaKey? && !k2.MetaKey? {
      BytesInjective(k1, k2);
    }
    if k1.MetaKey? && k2.MetaKey? {
      HexRoundTrip(BigEndian(k1.table, 4));
      HexRoundTrip(BigEndian(k2.table, 4));
      assert k1.String()[..8] == EncodeHex(BigEndian(k1.table, 4)) && k1.String()[8..] == k1.meta;
      assert k2.String()[..8] == EncodeHex(BigEndian(k2.table, 4)) && k2.String()[8..] == k2.meta;
      TableBytes(k1.table, k2.table);
    }
  }
}
