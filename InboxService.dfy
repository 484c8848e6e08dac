/**
 * MessageInboxService, the use case: it turns the optional Panache page into a domain Pageable
 * (page 0 of 20 when there is none) and serves the inbox through the cache adapter's getOrFetch,
 * whose supplier asks the persistence port with the original optional page.
 */
module InboxService {
  import opened Wrappers
  import opened JavaInts
  import opened Errors
  import opened Pagination
  import opened CacheKeys
  import opened Redis
  import opened MessageCache
  import opened InboxItems
  import opened InboxPersistence

  const DEFAULT_PAGE: Int32 := 0
  const DEFAULT_SIZE: Int32 := 20

  /** The persistence port's answer to findMessagesByUser, for a user and an optional page. */
  type InboxPort = (Int32, Option<Page>) -> Result<PagedResult<MessageInboxItem>, Error>

  /**
   * convertToPageable: Pageable.of(index, size) for a page, Pageable.of(0, 20) without one; a
   * page Pageable.of rejects is an IllegalArgumentException.
   */
  function ConvertToPageable(page: Option<Page>): (r: Result<Pageable, Error>)
    ensures page.None? ==> r == Success(Pageable(DEFAULT_PAGE, DEFAULT_SIZE))
    ensures page.Some? ==> (r.Success? <==> page.value.index >= 0 && page.value.size > 0)
    ensures page.Some? && r.Success? ==> r.value == Pageable(page.value.index, page.value.size)
    ensures r.Failure? ==> r.error.IllegalArgument?
  {
    if page.Some? then Of(page.value.index, page.value.size) else Of(DEFAULT_PAGE, DEFAULT_SIZE)
  }

  /** The supplier's answer: the port's result, never null. */
  function PortAnswer(port: InboxPort, userId: Int32, page: Option<Page>): (a: Result<Option<PagedResult<MessageInboxItem>>, Error>)
    ensures a.Success? <==> port(userId, page).Success?
    ensures a.Success? ==> a.value == Some(port(userId, page).value)
    ensures a.Failure? ==> a.error == port(userId, page).error
  {
    match port(userId, page)
    case Success(result) => Success(Some(result))
    case Failure(e) => Failure(e)
  }

  /**
   * An unpaginated request and a request for page 0 of size 20 use the same cache key, so once the
   * unpaginated one has stored its answer (every message of the user), the paginated one is served
   * that answer, all of it, without asking the port.
   */
  lemma UnpagedAnswerServedToFirstPage(md: DigestProvider, codec: JsonCodec<MessageInboxItem>,
                                       entries: map<string, Entry>, logLen: nat, failing: set<nat>, msg: string,
                                       userId: Int32, port: InboxPort)
    requires RoundTrips(codec)
    requires logLen !in failing && logLen + 1 !in failing && logLen + 2 !in failing
    requires port(userId, None).Success? && codec.write(port(userId, None).value).Some?
    requires Lookup(codec, entries, CacheKey(md, userId, Pageable(DEFAULT_PAGE, DEFAULT_SIZE))).None?
    ensures ConvertToPageable(None) == ConvertToPageable(Some(Page(0, 20)))
    ensures var p := ConvertToPageable(None).value;
      var o1 := GetOrFetchSpec(md, codec, entries, logLen, failing, msg, userId, p, PortAnswer(port, userId, None));
      var o2 := GetOrFetchSpec(md, codec, o1.entries, logLen + 2, failing, msg, userId, ConvertToPageable(Some(Page(0, 20))).value,
                               PortAnswer(port, userId, Some(Page(0, 20))));
      && o2.result.Success? && o2.result.value.Some?
      && o2.result.value.value.data == port(userId, None).value.data
      && !o2.supplierCalled
  {
    var p := Pageable(DEFAULT_PAGE, DEFAULT_SIZE);
    SecondCallHits(md, codec, entries, logLen, failing, msg, userId, p, port(userId, None).value,
                   PortAnswer(port, userId, Some(Page(0, 20))));
  }

  /** The use case over a cache adapter and a persistence port. */
  class MessageInboxService {
    const port: InboxPort
    const cacheAdapter: MessageCacheAdapter<MessageInboxItem>

    constructor(port: InboxPort, cacheAdapter: MessageCacheAdapter<MessageInboxItem>)
      ensures this.port == port && this.cacheAdapter == cacheAdapter
    {
      this.port := port;
      this.cacheAdapter := cacheAdapter;
    }

    /**
     * getMessageByUser: getOrFetch for the user and the converted pageable, the supplier asking
     * the port with the page as given; its result or failure is returned unchanged.
     */
    method GetMessageByUser(idUser: Int32, page: Option<Page>) returns (r: Result<Option<PagedResult<MessageInboxItem>>, Error>)
      modifies cacheAdapter.store
      ensures var pageable := ConvertToPageable(page);
        && (pageable.Failure? ==> r == Failure(pageable.error) && unchanged(cacheAdapter.store))
        && (pageable.Success? ==>
              var o := GetOrFetchSpec(cacheAdapter.md, cacheAdapter.codec, old(cacheAdapter.store.entries),
                                      |old(cacheAdapter.store.log)|, cacheAdapter.store.failing,
                                      cacheAdapter.store.failureMessage, idUser, pageable.value,
                                      PortAnswer(port, idUser, page));
              && r == o.result && cacheAdapter.store.entries == o.entries
              && cacheAdapter.store.log == old(cacheAdapter.store.log) + o.commands)
    {
      var pageable := ConvertToPageable(page);
      if pageable.Failure? {
        return Failure(pageable.error);
      }
      var supplier := new Supplier(PortAnswer(port, idUser, page));
      r := cacheAdapter.GetOrFetch(idUser, pageable.value, supplier);
    }

    /** invalidateUserCache: the adapter's count of deleted keys, or its failure, unchanged. */
    method InvalidateUserCache(userId: Int32) returns (r: Result<nat, Error>)
      modifies cacheAdapter.store
      ensures var store, doomed := cacheAdapter.store, KeysWithPrefix(old(cacheAdapter.store.entries), UserKeyPrefix(userId));
        && (r.Success? ==> r.value == |doomed| && store.entries == old(store.entries) - doomed)
        && (r.Failure? ==> r.error == StoreError(store.failureMessage) && store.entries == old(store.entries))
        && (old(store.NextFails()) ==> r.Failure? && store.log == old(store.log) + [Keys(UserKeyPrefix(userId) + "*")])
        && (!old(store.NextFails()) && doomed == {} ==>
              r == Success(0) && store.log == old(store.log) + [Keys(UserKeyPrefix(userId) + "*")])
        && (!old(store.NextFails()) && doomed != {} ==>
              store.log == old(store.log) + [Keys(UserKeyPrefix(userId) + "*"), Del(doomed)]
              && (r.Failure? <==> |old(store.log)| + 1 in store.failing))
    {
      r := cacheAdapter.InvalidateUserCache(userId);
    }
  }
}
