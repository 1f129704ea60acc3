/**
 Peer ids: `peer_id_from_bot_api_id` of `native/src/ops/chats.rs` and the dialog ids it reads. The ranges
 are the source's own, the reversed one included.
 */
module PeerIds {
  import opened Wrappers

  /** The source's `i64`. */
  newtype int64 = x: int | -0x8000_0000_0000_0000 <= x < 0x8000_0000_0000_0000

  datatype PeerId = User(bare: int64) | Chat(bare: int64) | Channel(bare: int64)

  /** A range of the source written `low..=high`. */
  predicate Between(low: int64, id: int64, high: int64) {
    low <= id <= high
  }

  /** `peer_id_from_bot_api_id` */
  function Decode(id: int64): (r: Result<PeerId, int64>)
    ensures r.Err? ==> r.error == id
  {
    if Between(1, id, 0xff_ffff_ffff) then Ok(User(id))
    else if Between(-999_999_999_999, id, -1) then Ok(Chat(-id))
    else if
      || Between(-1_997_852_516_352, id, -1_000_000_000_001)
      || Between(-2_002_147_483_649, id, -4_000_000_000_000)
    then Ok(Channel(-id - 1_000_000_000_000))
    else Err(id)
  }

  /** The Bot API dialog id of a peer: users as they are, groups negated, channels marked with `-100`. */
  function DialogId(kind: PeerId): (id: int) {
    match kind
    case User(bare) => bare as int
    case Chat(bare) => -(bare as int)
    case Channel(bare) => -1_000_000_000_000 - bare as int
  }

  /** The bare ids the decoder can answer. */
  predicate Addressable(p: PeerId) {
    match p
    case User(bare) => 1 <= bare <= 0xff_ffff_ffff
    case Chat(bare) => 1 <= bare <= 999_999_999_999
    case Channel(bare) => 1 <= bare <= 997_852_516_352
  }

  /** The channels whose dialog ids the reversed range was written for. */
  predicate SecondRange(p: PeerId) {
    p.Channel? && 1_002_147_483_649 <= p.bare <= 3_000_000_000_000
  }

  /**
   Over every `i64`: an id decodes to a peer exactly when the peer is addressable and the id is its dialog
   id. So decoding undoes encoding on the addressable peers, no two ids decode to one peer and no id to
   two kinds.
   */
  lemma DecodesIff(id: int64, p: PeerId)
    ensures Decode(id) == Ok(p) <==> Addressable(p) && DialogId(p) == id as int
  {
    if Addressable(p) && DialogId(p) == id as int {
      match p
      case User(bare) => assert bare == id;
      case Chat(bare) => assert bare == -id;
      case Channel(bare) => assert bare == -id - 1_000_000_000_000;
    }
  }

  /** No two addressable peers share a dialog id. */
  lemma DialogIdsAreDistinct(p: PeerId, q: PeerId)
    requires Addressable(p) && Addressable(q) && DialogId(p) == DialogId(q)
    ensures p == q
  {
    var id := DialogId(p) as int64;
    DecodesIff(id, p);
    DecodesIff(id, q);
  }

  /** Every id the second channel range was meant to admit is refused: as written it holds nothing. */
  lemma SecondRangeIsRefused(p: PeerId)
    requires SecondRange(p)
    ensures -0x8000_0000_0000_0000 <= DialogId(p) < 0x8000_0000_0000_0000
    ensures Between(-4_000_000_000_000, DialogId(p) as int64, -2_002_147_483_649)
    ensures Decode(DialogId(p) as int64) == Err(DialogId(p) as int64)
  {
  }
}
