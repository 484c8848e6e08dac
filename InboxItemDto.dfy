/**
 * MessageInboxItemDTO, the transport form of an inbox item, and its two conversions to and from
 * the domain item. Both copy all seven fields unchanged.
 */
module InboxItemDto {
  import opened Wrappers
  import opened JavaInts
  import opened JavaTime
  import opened InboxItems

  datatype MessageInboxItemDto = MessageInboxItemDto(
    idMessage: Option<Int32>,
    isRead: Option<string>,
    message: Option<string>,
    numAttachments: Option<Int32>,
    senderName: Option<string>,
    createdAt: Option<OffsetDateTime>,
    timeReceived: Option<string>)

  /** fromDomain: null for a null item, otherwise the DTO with the item's seven values. */
  function FromDomain(domain: Option<MessageInboxItem>): (r: Option<MessageInboxItemDto>)
    ensures r.None? <==> domain.None?
  {
    match domain
    case None => None
    case Some(d) =>
      Some(MessageInboxItemDto(d.idMessage, d.isRead, d.message, d.numAttachments, d.senderName, d.createdAt, d.timeReceived))
  }

  /** toDomain: a new domain item, assembled through its builder from the DTO's values. */
  function ToDomain(dto: MessageInboxItemDto): (item: MessageInboxItem)
    ensures item.idMessage == dto.idMessage && item.isRead == dto.isRead && item.message == dto.message
    ensures item.numAttachments == dto.numAttachments && item.senderName == dto.senderName
    ensures item.createdAt == dto.createdAt && item.timeReceived == dto.timeReceived
  {
    var b := NewItemBuilder().(
      idMessage := dto.idMessage,
      isRead := dto.isRead,
      message := dto.message,
      numAttachments := dto.numAttachments,
      senderName := dto.senderName,
      createdAt := dto.createdAt,
      timeReceived := dto.timeReceived);
    Build(b)
  }

  /** Converting an item to a DTO and back gives the same item. */
  lemma DomainRoundTrip(item: MessageInboxItem)
    ensures FromDomain(Some(item)).Some? && ToDomain(FromDomain(Some(item)).value) == item
  {
  }

  /** Converting a DTO to an item and back gives the same DTO. */
  lemma DtoRoundTrip(dto: MessageInboxItemDto)
    ensures FromDomain(Some(ToDomain(dto))) == Some(dto)
  {
  }

  /** The conversions keep what the inbox shows: the read flag and the attachment test. */
  lemma ConversionKeepsFlags(dto: MessageInboxItemDto)
    ensures IsRead(ToDomain(dto)) <==> dto.isRead == Some("Y")
    ensures HasAttachments(ToDomain(dto)) <==> dto.numAttachments.Some? && dto.numAttachments.value > 0
  {
  }
}
