/**
 * MessageInboxItem, one line of a user's inbox in the domain model, with its builder, the read and
 * attachment tests, and an identity that is its message id alone (equals and hashCode).
 */
module InboxItems {
  import opened Wrappers
  import opened JavaInts
  import opened JavaTime

  /** Every field is a reference that may be null. */
  datatype MessageInboxItem = MessageInboxItem(
    idMessage: Option<Int32>,
    isRead: Option<string>,
    message: Option<string>,
    numAttachments: Option<Int32>,
    senderName: Option<string>,
    createdAt: Option<OffsetDateTime>,
    timeReceived: Option<string>)

  /** `"Y".equals(flag)`: the read marker used by inbox items and recipient rows alike. */
  predicate IsReadFlag(flag: Option<string>)
  {
    flag == Some("Y")
  }

  /** isRead(): the flag is exactly "Y"; null and every other text mean unread. */
  predicate IsRead(item: MessageInboxItem)
  {
    IsReadFlag(item.isRead)
  }

  /** hasAttachments(): a non-null, positive attachment count. */
  predicate HasAttachments(item: MessageInboxItem)
  {
    item.numAttachments.Some? && item.numAttachments.value > 0
  }

  /** MessageInboxItem.Builder: the values collected so far; unset ones are null. */
  datatype ItemBuilder = ItemBuilder(
    idMessage: Option<Int32>,
    isRead: Option<string>,
    message: Option<string>,
    numAttachments: Option<Int32>,
    senderName: Option<string>,
    createdAt: Option<OffsetDateTime>,
    timeReceived: Option<string>)

  /** MessageInboxItem.builder(). */
  function NewItemBuilder(): ItemBuilder
  {
    ItemBuilder(None, None, None, None, None, None, None)
  }

  /** build(): the full constructor applied to the collected values. */
  function Build(b: ItemBuilder): (item: MessageInboxItem)
    ensures item.idMessage == b.idMessage && item.isRead == b.isRead && item.message == b.message
    ensures item.numAttachments == b.numAttachments && item.senderName == b.senderName
    ensures item.createdAt == b.createdAt && item.timeReceived == b.timeReceived
  {
    MessageInboxItem(b.idMessage, b.isRead, b.message, b.numAttachments, b.senderName, b.createdAt, b.timeReceived)
  }

  /** Building with nothing set gives an item whose fields are all null: unread, without attachments. */
  lemma EmptyBuildIsUnread()
    ensures var item := Build(NewItemBuilder());
      item == MessageInboxItem(None, None, None, None, None, None, None) && !IsRead(item) && !HasAttachments(item)
  {
  }

  /** equals: two items are equal when their ids are (both null counts as equal). */
  predicate ItemEquals(a: MessageInboxItem, b: MessageInboxItem)
  {
    a.idMessage == b.idMessage
  }

  /** equals is an equivalence relation that ignores every field but the id. */
  lemma ItemEqualsIsEquivalence(a: MessageInboxItem, b: MessageInboxItem, c: MessageInboxItem)
    ensures ItemEquals(a, a)
    ensures ItemEquals(a, b) ==> ItemEquals(b, a)
    ensures ItemEquals(a, b) && ItemEquals(b, c) ==> ItemEquals(a, c)
    ensures ItemEquals(a, a.(isRead := b.isRead, message := b.message, numAttachments := b.numAttachments,
                             senderName := b.senderName, createdAt := b.createdAt, timeReceived := b.timeReceived))
  {
  }

  /** hashCode: Objects.hash(idMessage) = 31 * 1 + idMessage.hashCode() in int arithmetic (0 for null). */
  function HashCode(item: MessageInboxItem): (h: Int32)
    ensures item.idMessage.None? ==> h == 31
    ensures item.idMessage.Some? ==> (h - (31 + item.idMessage.value)) % 0x1_0000_0000 == 0
    ensures item.idMessage.Some? && item.idMessage.value <= INT_MAX - 31 ==> h == 31 + item.idMessage.value
  {
    Wrap32(31 + (if item.idMessage.Some? then item.idMessage.value else 0))
  }

  /** Two ints that agree modulo 2^32 are the same int. */
  lemma SameResidue(x: Int32, y: Int32)
    requires (x - y) % 0x1_0000_0000 == 0
    ensures x == y
  {
    var d := x - y;
    assert -0x1_0000_0000 < d < 0x1_0000_0000;
    assert d == 0x1_0000_0000 * (d / 0x1_0000_0000);
  }

  /**
   * hashCode agrees with equals, and between items with ids it is exact: the hashes collide only
   * for equal items. (A null id hashes like id 0.)
   */
  lemma HashCodeMatchesEquals(a: MessageInboxItem, b: MessageInboxItem)
    ensures ItemEquals(a, b) ==> HashCode(a) == HashCode(b)
    ensures a.idMessage.Some? && b.idMessage.Some? ==> (HashCode(a) == HashCode(b) <==> ItemEquals(a, b))
    ensures HashCode(MessageInboxItem(None, None, None, None, None, None, None)) ==
            HashCode(MessageInboxItem(Some(0), None, None, None, None, None, None))
  {
    if a.idMessage.Some? && b.idMessage.Some? && HashCode(a) == HashCode(b) {
      var x: int, y: int := a.idMessage.value, b.idMessage.value;
      var hx, hy := Wrap32(31 + x), Wrap32(31 + y);
      assert (hx - (31 + x)) % 0x1_0000_0000 == 0 && (hy - (31 + y)) % 0x1_0000_0000 == 0;
      assert hx == hy;
      ResidueDifference(hx - (31 + x), hy - (31 + y));
      assert (hy - (31 + y)) - (hx - (31 + x)) == x - y;
      SameResidue(x, y);
    }
  }

  /** The difference of two multiples of 2^32 is one. */
  lemma ResidueDifference(d: int, e: int)
    requires d % 0x1_0000_0000 == 0 && e % 0x1_0000_0000 == 0
    ensures (e - d) % 0x1_0000_0000 == 0
  {
    var M := 0x1_0000_0000;
    assert d == M * (d / M) && e == M * (e / M);
    assert e - d == M * (e / M - d / M);
  }
}
