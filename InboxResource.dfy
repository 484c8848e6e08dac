/**
 * MessageInboxResource, the REST entry point: GET /api/message-inbox validates the X-User-Id
 * header and the optional page/number query parameters in a fixed order, calls the use case, and
 * answers 200 with a PagedResponse of item DTOs, 400 with the first validation error, or 500 when
 * the use case fails. GET /api/message-inbox/{id_message} validates and answers 501.
 */
module InboxResource {
  import opened Wrappers
  import opened JavaInts
  import opened JavaStrings
  import opened Errors
  import opened Pagination
  import opened RestDto
  import opened InboxItems
  import opened InboxItemDto
  import opened InboxPersistence
  import opened InboxService
  import opened MessageCache

  const BAD_REQUEST: int := 400
  const INTERNAL_SERVER_ERROR: int := 500
  const NOT_IMPLEMENTED: int := 501
  const MAX_PAGE_SIZE: int := 100

  const MISSING_USER_ID: string := "Missing X-User-Id header"
  const INVALID_USER_ID: string := "Invalid user ID format"
  const NEGATIVE_PAGE: string := "Page number cannot be negative"
  const INVALID_PAGE_SIZE: string := "Page size must be between 1 and 100"
  const MISSING_MESSAGE_ID: string := "Missing message ID"
  const DETAIL_NOT_IMPLEMENTED: string := "Message detail endpoint not implemented yet"
  const FETCH_ERROR_PREFIX: string := "Error fetching messages: "

  /** An HTTP response: 200 with the paged envelope, or a status with an ErrorResponse message. */
  datatype Response =
    | Ok(body: PagedResponse<Option<MessageInboxItemDto>>)
    | ErrorStatus(status: int, message: string)

  /** The outcome of validating a request: the error response, or the user id and the optional page. */
  datatype Validation =
    | Rejected(status: int, message: string)
    | Accepted(userId: Int32, page: Option<Page>)

  /** The two user-id checks both endpoints start with: present and non-blank, then Integer.parseInt. */
  function CheckUserId(userId: Option<string>): (v: Result<Int32, string>)
    ensures userId.None? || IsBlank(userId.value) ==> v == Failure(MISSING_USER_ID)
    ensures userId.Some? && !IsBlank(userId.value) ==>
      (v.Success? <==> ParseInt(userId.value).Some?) &&
      (v.Success? ==> Some(v.value) == ParseInt(userId.value)) &&
      (v.Failure? ==> v.error == INVALID_USER_ID)
  {
    if userId.None? || IsBlank(userId.value) then Failure(MISSING_USER_ID)
    else
      match ParseInt(userId.value)
      case None => Failure(INVALID_USER_ID)
      case Some(id) => Success(id)
  }

  /**
   * The checks of getMessageInbox, in order: the user id, then (only when both page and number are
   * given) a non-negative page and a size between 1 and 100. Without both, the request is unpaged.
   */
  function ValidateInboxRequest(userId: Option<string>, page: Option<Int32>, number: Option<Int32>): (v: Validation)
    ensures CheckUserId(userId).Failure? ==> v == Rejected(BAD_REQUEST, CheckUserId(userId).error)
    ensures CheckUserId(userId).Success? && page.Some? && number.Some? && page.value < 0 ==>
      v == Rejected(BAD_REQUEST, NEGATIVE_PAGE)
    ensures CheckUserId(userId).Success? && page.Some? && number.Some? && page.value >= 0 ==>
      (v == Rejected(BAD_REQUEST, INVALID_PAGE_SIZE) <==> !(1 <= number.value <= MAX_PAGE_SIZE))
    ensures v.Accepted? ==> CheckUserId(userId) == Success(v.userId)
    ensures v.Accepted? ==> (v.page.Some? <==> page.Some? && number.Some?)
    ensures v.Accepted? && v.page.Some? ==> v.page.value == Page(page.value, number.value)
    ensures v.Accepted? && v.page.Some? ==> 0 <= v.page.value.index && 1 <= v.page.value.size <= MAX_PAGE_SIZE
  {
    match CheckUserId(userId)
    case Failure(message) => Rejected(BAD_REQUEST, message)
    case Success(id) =>
      if page.Some? && number.Some? then
        if page.value < 0 then Rejected(BAD_REQUEST, NEGATIVE_PAGE)
        else if number.value <= 0 || number.value > MAX_PAGE_SIZE then Rejected(BAD_REQUEST, INVALID_PAGE_SIZE)
        else Accepted(id, Some(Page(page.value, number.value)))
      else Accepted(id, None)
  }

  /** Every page the resource lets through is one Pageable.of accepts, so the use case never throws on it. */
  lemma AcceptedPagesConvert(userId: Option<string>, page: Option<Int32>, number: Option<Int32>)
    requires ValidateInboxRequest(userId, page, number).Accepted?
    ensures var v := ValidateInboxRequest(userId, page, number);
      ConvertToPageable(v.page).Success? && Pagination.Accepted(ConvertToPageable(v.page).value)
      && IsPaged(ConvertToPageable(v.page).value)
  {
  }

  /** A missing header is reported first, whatever the other parameters are. */
  lemma MissingHeaderReportedFirst(page: Option<Int32>, number: Option<Int32>)
    ensures ValidateInboxRequest(None, page, number) == Rejected(BAD_REQUEST, MISSING_USER_ID)
    ensures ValidateInboxRequest(Some(" \t"), page, number) == Rejected(BAD_REQUEST, MISSING_USER_ID)
  {
    assert Trim(" \t") == [] by {
      assert forall i :: 0 <= i < |" \t"| ==> IsTrimmable(" \t"[i]);
    }
  }

  /** parseInt does not trim: " 42" passes the blank test but is not a valid user id. */
  lemma PaddedUserIdRejected()
    ensures ValidateInboxRequest(Some(" 42"), None, None) == Rejected(BAD_REQUEST, INVALID_USER_ID)
  {
    assert !IsTrimmable(" 42"[1]);
    assert ParseInt(" 42").None?;
  }

  /** A page is validated before the size, and either parameter alone is ignored. */
  lemma PageCheckedBeforeSize()
    ensures ValidateInboxRequest(Some("7"), Some(-1), Some(0)) == Rejected(BAD_REQUEST, NEGATIVE_PAGE)
    ensures ValidateInboxRequest(Some("7"), Some(0), Some(101)) == Rejected(BAD_REQUEST, INVALID_PAGE_SIZE)
    ensures ValidateInboxRequest(Some("7"), Some(-1), None) == Accepted(7, None)
  {
    ParseIntOfDecimal(7);
    assert IntToDecimal(7) == "7";
    assert !IsTrimmable("7"[0]);
  }

  /**
   * The mapping of the use case's outcome: 200 with the items as DTOs and page, size and
   * totalElements from the result (the builder derives the rest); any failure, including a null
   * result, is a 500 carrying the exception's message.
   */
  function InboxResponse(outcome: Result<Option<PagedResult<MessageInboxItem>>, Error>): (r: Response)
    ensures outcome.Failure? ==> r == ErrorStatus(INTERNAL_SERVER_ERROR, FETCH_ERROR_PREFIX + OrNull(Message(outcome.error)))
    ensures outcome == Success(None) ==> r == ErrorStatus(INTERNAL_SERVER_ERROR, FETCH_ERROR_PREFIX + "null")
    ensures outcome.Success? && outcome.value.Some? ==> var result := outcome.value.value;
      && r.Ok? && r.body.data.Some? && |r.body.data.value| == |result.data|
      && (forall i :: 0 <= i < |result.data| ==> r.body.data.value[i] == FromDomain(Some(result.data[i])))
      && r.body.page == result.page && r.body.size == result.size && r.body.totalElements == result.totalElements
      && DerivedFieldsAgree(r.body)
  {
    match outcome
    case Failure(e) => ErrorStatus(INTERNAL_SERVER_ERROR, FETCH_ERROR_PREFIX + OrNull(Message(e)))
    case Success(None) => ErrorStatus(INTERNAL_SERVER_ERROR, FETCH_ERROR_PREFIX + OrNull(Message(NullPointer)))
    case Success(Some(result)) =>
      var dtos := seq(|result.data|, i requires 0 <= i < |result.data| => FromDomain(Some(result.data[i])));
      Ok(RestDto.Build(RestDto.NewBuilder().(data := Some(dtos), page := result.page, size := result.size, totalElements := result.totalElements)))
  }

  /** The DTOs in a 200 response convert back to exactly the items of the result. */
  lemma ResponseItemsRoundTrip(result: PagedResult<MessageInboxItem>, i: int)
    requires 0 <= i < |result.data|
    ensures var r := InboxResponse(Success(Some(result)));
      r.body.data.value[i].Some? && ToDomain(r.body.data.value[i].value) == result.data[i]
  {
    DomainRoundTrip(result.data[i]);
  }

  /**
   * For a paginated result with a count in int range, the response reports the same number of
   * pages and the same neighbours as the domain result.
   */
  lemma ResponseMetadataMatchesResult(result: PagedResult<MessageInboxItem>)
    requires result == NewPagedResult(result.data, result.totalElements, result.page, result.size)
    requires result.size > 0 && 0 <= result.totalElements <= INT_MAX
    ensures var r := InboxResponse(Success(Some(result)));
      r.body.totalPages == result.totalPages && r.body.hasNext == HasNext(result) && r.body.hasPrevious == HasPrevious(result)
  {
    var dtos := InboxResponse(Success(Some(result))).body.data.value;
    ResponseAgreesWithResult(result, dtos);
  }

  /** A store failure reaches the client as a 500 naming the store's message. */
  lemma StoreFailureMessage(m: string)
    ensures InboxResponse(Failure(StoreError(m))) == ErrorStatus(500, "Error fetching messages: " + m)
  {
  }

  /**
   * getMessageInbox: the validation, then the use case on the accepted user and page, then the
   * response mapping of its outcome.
   */
  method GetMessageInbox(service: MessageInboxService, userId: Option<string>, page: Option<Int32>, number: Option<Int32>)
    returns (r: Response)
    modifies service.cacheAdapter.store
    ensures var v := ValidateInboxRequest(userId, page, number);
      && (v.Rejected? ==> r == ErrorStatus(v.status, v.message) && unchanged(service.cacheAdapter.store))
      && (v.Accepted? ==> r.Ok? || r.status == INTERNAL_SERVER_ERROR)
      && (v.Accepted? && ConvertToPageable(v.page).Success? ==>
            var adapter := service.cacheAdapter;
            var o := GetOrFetchSpec(adapter.md, adapter.codec, old(adapter.store.entries), |old(adapter.store.log)|,
                                    adapter.store.failing, adapter.store.failureMessage, v.userId,
                                    ConvertToPageable(v.page).value, PortAnswer(service.port, v.userId, v.page));
            && r == InboxResponse(o.result) && adapter.store.entries == o.entries
            && adapter.store.log == old(adapter.store.log) + o.commands)
  {
    var v := ValidateInboxRequest(userId, page, number);
    if v.Rejected? {
      return ErrorStatus(v.status, v.message);
    }
    AcceptedPagesConvert(userId, page, number);
    var outcome := service.GetMessageByUser(v.userId, v.page);
    r := InboxResponse(outcome);
  }

  /** getMessageById: the two user-id checks, then a missing id; every valid request is answered 501. */
  function GetMessageById(userId: Option<string>, idMessage: Option<Int32>): (r: Response)
    ensures r.ErrorStatus?
    ensures r.status == BAD_REQUEST || r.status == NOT_IMPLEMENTED
    ensures CheckUserId(userId).Failure? ==> r == ErrorStatus(BAD_REQUEST, CheckUserId(userId).error)
    ensures r.status == NOT_IMPLEMENTED <==> CheckUserId(userId).Success? && idMessage.Some?
    ensures CheckUserId(userId).Success? && idMessage.None? ==> r.message == MISSING_MESSAGE_ID
  {
    match CheckUserId(userId)
    case Failure(message) => ErrorStatus(BAD_REQUEST, message)
    case Success(_) =>
      if idMessage.None? then ErrorStatus(BAD_REQUEST, MISSING_MESSAGE_ID)
      else ErrorStatus(NOT_IMPLEMENTED, DETAIL_NOT_IMPLEMENTED)
  }
}
