# service-messages inbox read path, modelled in Dafny

This project models the read side of the messaging service: the paginated inbox of one user. A request enters at the REST resource (`GET /api/message-inbox` with the `X-User-Id` header; `GET /api/message-inbox/{id_message}` is the detail endpoint, answered 501), which validates the header and the page parameters. The use case `MessageInboxService` turns the optional page into a `Pageable` and reads through a Redis cache-aside adapter (`MessageCacheAdapter`). On a miss the adapter asks the persistence adapter, which maps recipient rows to `MessageInboxItem`s and wraps them in a `PagedResult`. The resource turns the result into a `PagedResponse` of DTOs, or into an `ErrorResponse`. The project also models the JPA entities' own logic (file-extension tests, read/unread marks, the parent/child list helpers) and the two detail mappers.

Modelling conventions:

- A Java reference that may be null is an `Option`, except the `data` list of `PagedResult` (see "## Left out").
- A failed `Uni` or a thrown exception is a `Failure` of `Result`.
- `int` and `long` are subset types; every place where the source's arithmetic can wrap is written with `Wrap32` or `Wrap64`.
- The clock (`OffsetDateTime.now()`, `LocalDateTime.now()`) and the `dd/MM/yyyy` formatter are parameters.
- Two external components are not modelled on their real bytes:
  - The MD5 digest is a function value, or `NoSuchAlgorithm` for the source's fallback branch.
  - Jackson is a pair of write/read functions. The caching lemmas assume only that it round-trips the four fields the JSON creator takes. In Java this round trip holds only up to the offset of `OffsetDateTime` values, which Jackson reads back at UTC. So the "same data" conclusions of `MessageCache.SecondCallHits` and `InboxService.UnpagedAnswerServedToFirstPage` hold in Java under `MessageInboxItem.equals`, which compares ids only, not field by field.
- Redis is a class. It holds a map of entries, the log of the commands sent to it, and the set of log positions at which the connection fails.

Modules, one file each:

- `Wrappers`, `Errors`: Option/Result types and the exceptions.
- `JavaInts`, `JavaStrings`, `JavaTime`: the Java library behaviour the code relies on.
- `Pagination`: `Pageable` and `PagedResult`.
- `RestDto`: `PagedResponse` and its builder.
- `CacheKeys`: key and hash generation.
- `Redis`: the store.
- `MessageCache`: the adapter.
- `InboxItems` and `InboxItemDto`: the inbox item and its DTO.
- `Entities`: the JPA entities.
- `DetailDtos`, `MessageInfoMapper`, `MessageDetailsMapper`: the detail DTOs and their mappers.
- `InboxPersistence`, `InboxService`, `InboxResource`: the three layers of the read path.

Two behaviours of the code worth noting:

- getOrFetch populates the cache with `.call(set(...))`, so a failing SETEX fails the whole call instead of being only logged. `MessageCache.FailedWriteFailsCall` states this.
- An unpaged request and an explicit request for page 0 of size 20 share one cache key, because the use case converts "no page" to `Pageable.of(0, 20)`. So the first page can be served the complete unpaged list (`InboxService.UnpagedAnswerServedToFirstPage`). This is how the code is written, and it is recorded here as documented behaviour.

## Model

| member | source | states |
|---|---|---|
| Pagination.Of | src/main/java/org/walrex/domain/model/Pageable.java:17-25 | succeeds exactly for page >= 0 and size > 0, keeping both; the negative page is reported before the size, with the two IllegalArgumentException messages |
| Pagination.OfRecoversAccepted | src/main/java/org/walrex/domain/model/Pageable.java:17-25 | every accepted pageable is what of returns for its own page and size |
| Pagination.Unpaged | src/main/java/org/walrex/domain/model/Pageable.java:27-29 | the unpaged request reports isPaged false, has offset 0 and passes of's checks |
| Pagination.IsPaged | src/main/java/org/walrex/domain/model/Pageable.java:43-45 | paged exactly when the size is not Integer.MAX_VALUE (see Pagination.OfMaxSizeIsUnpaged) |
| Pagination.Offset | src/main/java/org/walrex/domain/model/Pageable.java:39-41 | the offset is page * size whenever that product fits in an int |
| Pagination.OfMaxSizeIsUnpaged | src/main/java/org/walrex/domain/model/Pageable.java:43-45 | isPaged looks only at the size: of(page, Integer.MAX_VALUE) reports unpaged |
| Pagination.OffsetCanWrap | src/main/java/org/walrex/domain/model/Pageable.java:39-41 | an accepted pageable (2, 2^30) has offset Integer.MIN_VALUE |
| Pagination.CeilDiv | src/main/java/org/walrex/domain/model/PagedResult.java:34 | the least number of size-sized pages that hold the total: size*(q-1) < total <= size*q |
| Pagination.NewPagedResult | src/main/java/org/walrex/domain/model/PagedResult.java:25-35 | keeps the four arguments; totalPages is the least page count that holds totalElements for size > 0, else 0 |
| Pagination.NewUnpagedResult | src/main/java/org/walrex/domain/model/PagedResult.java:40-46 | all data on page 0, size = count = list length, exactly one page, no next or previous page |
| Pagination.HasNextIffElementsRemain | src/main/java/org/walrex/domain/model/PagedResult.java:68-70 | for a paginated result, hasNext holds exactly when some element lies beyond the current page |
| Pagination.HasNext | src/main/java/org/walrex/domain/model/PagedResult.java:68-70 | page < totalPages - 1 in long arithmetic (see Pagination.HasNextIffElementsRemain) |
| Pagination.HasPrevious | src/main/java/org/walrex/domain/model/PagedResult.java:72-74 | page > 0 (see Pagination.NewUnpagedResult and Pagination.PageCountExamples) |
| Pagination.PageCountExamples | src/main/java/org/walrex/domain/model/PagedResult.java:68-74 | 20 of 20 is one page; 21 in pages of 20 is two pages, and next/previous follow |
| RestDto.CalculateTotalPages | src/main/java/org/walrex/infrastructure/adapters/inbound/rest/dto/PagedResponse.java:86-91 | 0 for size 0; for a positive size and an int-range count, the least page count that holds the elements |
| RestDto.NewPagedResponse | src/main/java/org/walrex/infrastructure/adapters/inbound/rest/dto/PagedResponse.java:40-48 | keeps its arguments and derives totalPages, hasNext (page < totalPages - 1) and hasPrevious (page > 0) |
| RestDto.NewBuilder | src/main/java/org/walrex/infrastructure/adapters/inbound/rest/dto/PagedResponse.java:51-53 | a new builder holds a null list and zeros |
| RestDto.Build | src/main/java/org/walrex/infrastructure/adapters/inbound/rest/dto/PagedResponse.java:81-83 | the built response carries the collected values and derived fields that agree with them |
| RestDto.EmptyBuild | src/main/java/org/walrex/infrastructure/adapters/inbound/rest/dto/PagedResponse.java:55-91 | building with nothing set gives a null list, no pages and no neighbours |
| RestDto.ResponseAgreesWithResult | src/main/java/org/walrex/infrastructure/adapters/inbound/rest/dto/PagedResponse.java:86-91 | for a paginated result with an int-range count, the envelope's totalPages, hasNext and hasPrevious equal the domain result's |
| RestDto.UnpagedResponsePageCount | src/main/java/org/walrex/infrastructure/adapters/inbound/rest/dto/PagedResponse.java:86-91 | an empty unpaged result reports one page in the domain but zero pages in the envelope |
| RestDto.SetSizeLeavesTotalPagesStale | src/main/java/org/walrex/infrastructure/adapters/inbound/rest/dto/PagedResponse.java:114-116 | setSize recomputes nothing: after it, totalPages no longer matches size and count |
| CacheKeys.Utf8 | src/main/java/org/walrex/infrastructure/adapters/outbound/cache/MessageCacheAdapter.java:106 | ASCII text encodes to one byte per character, with the character's code |
| CacheKeys.DigestInput | src/main/java/org/walrex/infrastructure/adapters/outbound/cache/MessageCacheAdapter.java:104-106 | the digested bytes are the characters of "page=%d&size=%d" |
| CacheKeys.ParamsStringInjective | src/main/java/org/walrex/infrastructure/adapters/outbound/cache/MessageCacheAdapter.java:104 | distinct pageables give distinct parameter texts |
| CacheKeys.ToHexString | src/main/java/org/walrex/infrastructure/adapters/outbound/cache/MessageCacheAdapter.java:111 | Integer.toHexString gives lowercase hex digits, a single one exactly for values below 16 |
| CacheKeys.HexPairDigits | src/main/java/org/walrex/infrastructure/adapters/outbound/cache/MessageCacheAdapter.java:111-115 | each byte becomes exactly its two hex digits, high nibble first, thanks to the '0' padding |
| CacheKeys.HexShape | src/main/java/org/walrex/infrastructure/adapters/outbound/cache/MessageCacheAdapter.java:109-117 | the hex text is twice as long as the digest and all lowercase hex |
| CacheKeys.HexRoundTrip | src/main/java/org/walrex/infrastructure/adapters/outbound/cache/MessageCacheAdapter.java:109-117 | reading the hex text back gives the digest bytes |
| CacheKeys.HexInjective | src/main/java/org/walrex/infrastructure/adapters/outbound/cache/MessageCacheAdapter.java:109-117 | distinct digests give distinct hex texts |
| CacheKeys.HexEncode | src/main/java/org/walrex/infrastructure/adapters/outbound/cache/MessageCacheAdapter.java:109-117 | the for-each loop builds the pair encoding of every byte in order |
| CacheKeys.ParametersHash | src/main/java/org/walrex/infrastructure/adapters/outbound/cache/MessageCacheAdapter.java:102-124 | with MD5: 32 lowercase hex digits; without: page and size printed with a '-' between |
| CacheKeys.GenerateParametersHash | src/main/java/org/walrex/infrastructure/adapters/outbound/cache/MessageCacheAdapter.java:102-124 | the imperative hash equals ParametersHash |
| CacheKeys.Md5HashCollision | src/main/java/org/walrex/infrastructure/adapters/outbound/cache/MessageCacheAdapter.java:102-117 | two distinct pageables share a hash exactly when MD5 collides on their parameter bytes |
| CacheKeys.FallbackHashInjective | src/main/java/org/walrex/infrastructure/adapters/outbound/cache/MessageCacheAdapter.java:119-123 | the fallback hash tells every two pageables apart |
| CacheKeys.CacheKey | src/main/java/org/walrex/infrastructure/adapters/outbound/cache/MessageCacheAdapter.java:58-61 | the key is the user's "msg-svc-<id>-list-" prefix followed by the parameter hash |
| CacheKeys.GenerateCacheKey | src/main/java/org/walrex/infrastructure/adapters/outbound/cache/MessageCacheAdapter.java:58-61 | the imperative key generation equals CacheKey |
| CacheKeys.UserPrefixMatchesOnlyOwnKeys | src/main/java/org/walrex/infrastructure/adapters/outbound/cache/MessageCacheAdapter.java:183-187 | the invalidation pattern of user u matches a key of user v exactly when u == v |
| CacheKeys.CacheKeyInjective | src/main/java/org/walrex/infrastructure/adapters/outbound/cache/MessageCacheAdapter.java:58-61 | two keys coincide exactly when the users and the parameter hashes do |
| Redis.KeysWithPrefix | src/main/java/org/walrex/infrastructure/adapters/outbound/cache/MessageCacheAdapter.java:187 | KEYS "prefix*" reports exactly the stored keys that start with the prefix |
| Redis.GetValue | src/main/java/org/walrex/infrastructure/adapters/outbound/cache/MessageCacheAdapter.java:139 | GET gives the stored text, or null for a missing key |
| Redis.RedisStore.constructor | src/main/java/org/walrex/infrastructure/adapters/outbound/cache/MessageCacheAdapter.java:44-48 | a store with the given entries, an empty command log and the given failure points |
| Redis.RedisStore.Get | src/main/java/org/walrex/infrastructure/adapters/outbound/cache/MessageCacheAdapter.java:139 | logs the GET, changes no entry, and fails or returns the stored value |
| Redis.RedisStore.SetEx | src/main/java/org/walrex/infrastructure/adapters/outbound/cache/MessageCacheAdapter.java:165 | logs the SETEX; a connection failure or a non-positive TTL leaves the entries alone, otherwise the key is set |
| Redis.RedisStore.KeysMatching | src/main/java/org/walrex/infrastructure/adapters/outbound/cache/MessageCacheAdapter.java:187 | logs the KEYS, changes nothing, returns exactly the matching keys |
| Redis.RedisStore.Delete | src/main/java/org/walrex/infrastructure/adapters/outbound/cache/MessageCacheAdapter.java:195 | removes exactly the given keys and replies how many of them existed |
| MessageCache.Deserialize | src/main/java/org/walrex/infrastructure/adapters/outbound/cache/MessageCacheAdapter.java:67-82 | null or empty text is a miss; otherwise the decoder's answer, where a decode error is a miss |
| MessageCache.Serialize | src/main/java/org/walrex/infrastructure/adapters/outbound/cache/MessageCacheAdapter.java:87-94 | fails with the serialization error exactly when the encoder fails; otherwise the encoder's text |
| MessageCache.LookupHitIff | src/main/java/org/walrex/infrastructure/adapters/outbound/cache/MessageCacheAdapter.java:134-149 | a lookup hits exactly when the key is stored with non-empty text that decodes |
| MessageCache.HitSkipsSupplier | src/main/java/org/walrex/infrastructure/adapters/outbound/cache/MessageCacheAdapter.java:244-248 | on a hit getOrFetch returns the cached value, does not call the supplier and writes nothing |
| MessageCache.MissStoresAnswer | src/main/java/org/walrex/infrastructure/adapters/outbound/cache/MessageCacheAdapter.java:249-253 | on a miss the supplier's answer is returned and stored under the key with the ten-minute TTL |
| MessageCache.StoreChangesOnlyByPopulate | src/main/java/org/walrex/infrastructure/adapters/outbound/cache/MessageCacheAdapter.java:242-255 | getOrFetch changes at most its own key, and only with the serialized answer |
| MessageCache.NullOrFailedAnswerNotStored | src/main/java/org/walrex/infrastructure/adapters/outbound/cache/MessageCacheAdapter.java:249-253 | a null answer is returned and not stored; a failed supplier fails the call and writes nothing |
| MessageCache.FailedWriteFailsCall | src/main/java/org/walrex/infrastructure/adapters/outbound/cache/MessageCacheAdapter.java:253 | a failing SETEX fails the whole getOrFetch with the store's error |
| MessageCache.SerializationFailureWritesNothing | src/main/java/org/walrex/infrastructure/adapters/outbound/cache/MessageCacheAdapter.java:161-163 | an answer that does not serialize fails the call before anything is sent to Redis |
| MessageCache.SecondCallHits | src/main/java/org/walrex/infrastructure/adapters/outbound/cache/MessageCacheAdapter.java:242-255 | after a miss that stored an answer, the same request hits and returns the same content without the supplier |
| MessageCache.InvalidatedUserMisses | src/main/java/org/walrex/infrastructure/adapters/outbound/cache/MessageCacheAdapter.java:183-204 | after a user's keys are removed, every lookup of that user misses |
| MessageCache.InvalidationKeepsOtherUsers | src/main/java/org/walrex/infrastructure/adapters/outbound/cache/MessageCacheAdapter.java:183-204 | removing a user's keys leaves every other user's lookups as they were |
| MessageCache.Supplier.Get | src/main/java/org/walrex/infrastructure/adapters/outbound/cache/MessageCacheAdapter.java:251 | returns the fixed answer and counts the call |
| MessageCache.MessageCacheAdapter.constructor | src/main/java/org/walrex/infrastructure/adapters/outbound/cache/MessageCacheAdapter.java:43-48 | an adapter over the given store, codec and digest |
| MessageCache.MessageCacheAdapter.Get | src/main/java/org/walrex/infrastructure/adapters/outbound/cache/MessageCacheAdapter.java:134-149 | issues one GET of the derived key, changes no entry, fails with the store's error or returns the deserialized lookup |
| MessageCache.MessageCacheAdapter.Set | src/main/java/org/walrex/infrastructure/adapters/outbound/cache/MessageCacheAdapter.java:161-174 | a serialization failure sends nothing; otherwise one SETEX of the key with the given TTL and its outcome |
| MessageCache.MessageCacheAdapter.InvalidateUserCache | src/main/java/org/walrex/infrastructure/adapters/outbound/cache/MessageCacheAdapter.java:183-204 | KEYS of the user pattern, then 0 without DEL when none match, else DEL of exactly those keys with the count removed |
| MessageCache.MessageCacheAdapter.Invalidate | src/main/java/org/walrex/infrastructure/adapters/outbound/cache/MessageCacheAdapter.java:213-230 | DEL of the one derived key; true exactly when it was stored |
| MessageCache.MessageCacheAdapter.GetOrFetch | src/main/java/org/walrex/infrastructure/adapters/outbound/cache/MessageCacheAdapter.java:242-255 | result, new entries, commands and supplier calls are those of the cache-aside specification GetOrFetchSpec |
| InboxItems.Build | src/main/java/org/walrex/domain/model/MessageInboxItem.java:45-93 | the built item holds exactly the collected values |
| InboxItems.IsRead | src/main/java/org/walrex/domain/model/MessageInboxItem.java:96-98 | read exactly when the flag is the text "Y"; null and every other text are unread (see InboxItemDto.ConversionKeepsFlags) |
| InboxItems.HasAttachments | src/main/java/org/walrex/domain/model/MessageInboxItem.java:100-102 | a non-null, positive attachment count (see InboxItemDto.ConversionKeepsFlags) |
| InboxItems.ItemEquals | src/main/java/org/walrex/domain/model/MessageInboxItem.java:161-167 | equality of the ids alone, null equal to null (see InboxItems.ItemEqualsIsEquivalence) |
| InboxItems.HashCode | src/main/java/org/walrex/domain/model/MessageInboxItem.java:169-172 | Objects.hash(idMessage): 31 for a null id, otherwise 31 + id modulo 2^32, exactly 31 + id when that fits |
| InboxItems.EmptyBuildIsUnread | src/main/java/org/walrex/domain/model/MessageInboxItem.java:96-102 | an item built with nothing set is unread and has no attachments |
| InboxItems.ItemEqualsIsEquivalence | src/main/java/org/walrex/domain/model/MessageInboxItem.java:161-167 | equals is reflexive, symmetric and transitive, and ignores every field but the id |
| InboxItems.HashCodeMatchesEquals | src/main/java/org/walrex/domain/model/MessageInboxItem.java:169-172 | equal items hash alike; for non-null ids the hash is equal exactly when the ids are; a null id hashes like id 0 |
| InboxItemDto.FromDomain | src/main/java/org/walrex/domain/model/dto/MessageInboxItemDTO.java:52-65 | null maps to null; otherwise the DTO with the item's seven values |
| InboxItemDto.ToDomain | src/main/java/org/walrex/domain/model/dto/MessageInboxItemDTO.java:68-78 | the new item holds exactly the DTO's seven values |
| InboxItemDto.DomainRoundTrip | src/main/java/org/walrex/domain/model/dto/MessageInboxItemDTO.java:52-78 | item to DTO and back gives the same item |
| InboxItemDto.DtoRoundTrip | src/main/java/org/walrex/domain/model/dto/MessageInboxItemDTO.java:52-78 | DTO to item and back gives the same DTO |
| InboxItemDto.ConversionKeepsFlags | src/main/java/org/walrex/domain/model/dto/MessageInboxItemDTO.java:68-78 | the converted item is read exactly when the DTO's flag is "Y" and has attachments exactly when its count is positive |
| Entities.ExtensionOf | src/main/java/org/walrex/infrastructure/adapters/outbound/persistence/entity/AttachmentEntity.java:51-56 | "" for a null name or one without '.'; otherwise the text after the last '.', which holds no '.' |
| Entities.ExtensionExamples | src/main/java/org/walrex/infrastructure/adapters/outbound/persistence/entity/AttachmentEntity.java:51-56 | "a.tar.gz" gives "gz", "name." gives "", ".bashrc" gives "bashrc" |
| Entities.KindsAreExclusive | src/main/java/org/walrex/infrastructure/adapters/outbound/persistence/entity/AttachmentEntity.java:58-70 | no file is two of image, PDF and document |
| Entities.ImageExample | src/main/java/org/walrex/infrastructure/adapters/outbound/persistence/entity/AttachmentEntity.java:58-61 | "Photo.JPG" is an image, whatever the case |
| Entities.PdfExample | src/main/java/org/walrex/infrastructure/adapters/outbound/persistence/entity/AttachmentEntity.java:63-65 | "Report.PDF" is a PDF and neither an image nor a document |
| Entities.CompressedExample | src/main/java/org/walrex/infrastructure/adapters/outbound/persistence/entity/AttachmentEntity.java:51-70 | only the last extension counts: "archive.tar.gz" is neither image nor document |
| Entities.RemoveFirst | src/main/java/org/walrex/infrastructure/adapters/outbound/persistence/entity/MessageEntity.java:62-65 | List.remove(Object): unchanged when absent; otherwise one shorter with one occurrence fewer |
| Entities.RemoveFirstAt | src/main/java/org/walrex/infrastructure/adapters/outbound/persistence/entity/MessageEntity.java:62-65 | only the first occurrence is removed and the others keep their order |
| Entities.AddThenRemoveRestores | src/main/java/org/walrex/infrastructure/adapters/outbound/persistence/entity/MessageEntity.java:57-65 | adding a new element and removing it restores the list |
| Entities.RemoveFirstMembership | src/main/java/org/walrex/infrastructure/adapters/outbound/persistence/entity/MessageEntity.java:62-65 | an element that occurred at most once is gone and nothing new appears |
| Entities.AttachmentEntity.constructor | src/main/java/org/walrex/infrastructure/adapters/outbound/persistence/entity/AttachmentEntity.java:37-39 | uploadedAt is the current instant; all other fields null |
| Entities.AttachmentEntity.WithFile | src/main/java/org/walrex/infrastructure/adapters/outbound/persistence/entity/AttachmentEntity.java:42-48 | the upload time stamped and the four arguments stored |
| Entities.AttachmentEntity.FileExtension | src/main/java/org/walrex/infrastructure/adapters/outbound/persistence/entity/AttachmentEntity.java:51-56 | a dot-free text, "" for a null name or one without '.'; it is Entities.ExtensionOf of the name |
| Entities.AttachmentEntity.IsImage | src/main/java/org/walrex/infrastructure/adapters/outbound/persistence/entity/AttachmentEntity.java:58-61 | the lower-cased extension is an image extension (see Entities.KindsAreExclusive) |
| Entities.AttachmentEntity.IsPdf | src/main/java/org/walrex/infrastructure/adapters/outbound/persistence/entity/AttachmentEntity.java:63-65 | the extension is "pdf" up to case (see Entities.PdfExample) |
| Entities.AttachmentEntity.IsDocument | src/main/java/org/walrex/infrastructure/adapters/outbound/persistence/entity/AttachmentEntity.java:67-70 | the lower-cased extension is a document extension (see Entities.KindsAreExclusive) |
| Entities.MessageRecipientEntity.constructor | src/main/java/org/walrex/infrastructure/adapters/outbound/persistence/entity/MessageRecipientEntity.java:43-45 | a new recipient is unread ("N") with no read time |
| Entities.MessageRecipientEntity.ForRecipient | src/main/java/org/walrex/infrastructure/adapters/outbound/persistence/entity/MessageRecipientEntity.java:48-52 | unread, with the given message and recipient |
| Entities.MessageRecipientEntity.IsRead | src/main/java/org/walrex/infrastructure/adapters/outbound/persistence/entity/MessageRecipientEntity.java:55-57 | the flag is exactly "Y"; MarkAsRead makes it hold and MarkAsUnread makes it fail |
| Entities.MessageRecipientEntity.MarkAsRead | src/main/java/org/walrex/infrastructure/adapters/outbound/persistence/entity/MessageRecipientEntity.java:59-62 | the flag becomes "Y" and readAt the current time; the row is then read and consistent |
| Entities.MessageRecipientEntity.MarkAsUnread | src/main/java/org/walrex/infrastructure/adapters/outbound/persistence/entity/MessageRecipientEntity.java:64-67 | the flag becomes "N" and readAt null; the row is then unread and consistent |
| Entities.MessageEntity.constructor | src/main/java/org/walrex/infrastructure/adapters/outbound/persistence/entity/MessageEntity.java:36-46 | createAt is the current instant and both lists are empty |
| Entities.MessageEntity.WithFields | src/main/java/org/walrex/infrastructure/adapters/outbound/persistence/entity/MessageEntity.java:49-54 | the creation time stamped, the three arguments stored, empty lists |
| Entities.MessageEntity.AddRecipient | src/main/java/org/walrex/infrastructure/adapters/outbound/persistence/entity/MessageEntity.java:57-60 | appends the row and points it back at this message; the back-links stay intact |
| Entities.MessageEntity.RemoveRecipient | src/main/java/org/walrex/infrastructure/adapters/outbound/persistence/entity/MessageEntity.java:62-65 | removes the first occurrence and clears its message; the back-links stay intact when it occurred once |
| Entities.MessageEntity.AddAttachment | src/main/java/org/walrex/infrastructure/adapters/outbound/persistence/entity/MessageEntity.java:67-70 | appends the attachment and points it back at this message |
| Entities.MessageEntity.RemoveAttachment | src/main/java/org/walrex/infrastructure/adapters/outbound/persistence/entity/MessageEntity.java:72-75 | removes the first occurrence and clears its message |
| MessageInfoMapper.ConcatenarApellidosNombres | src/main/java/org/walrex/domain/model/mapper/MessageInfoMapper.java:125-139 | "apellidos, nombres" when both are present, the one present otherwise, null when neither is |
| MessageInfoMapper.ApenomDeterminesParts | src/main/java/org/walrex/domain/model/mapper/MessageInfoMapper.java:125-139 | for comma-free surnames the display name determines both parts |
| MessageInfoMapper.CommaInSurnamesIsAmbiguous | src/main/java/org/walrex/domain/model/mapper/MessageInfoMapper.java:125-139 | with a comma in the surnames two different pairs display alike |
| MessageInfoMapper.ToSenderInfo | src/main/java/org/walrex/domain/model/mapper/MessageInfoMapper.java:56-75 | null stays null; ids and user name copied; the display name by the concatenation rule |
| MessageInfoMapper.ToAttachmentInfo | src/main/java/org/walrex/domain/model/mapper/MessageInfoMapper.java:102-116 | null stays null; every field copied |
| MessageInfoMapper.ToAttachmentInfoInjective | src/main/java/org/walrex/domain/model/mapper/MessageInfoMapper.java:102-116 | distinct attachments convert to distinct infos |
| MessageInfoMapper.ToAttachmentInfoList | src/main/java/org/walrex/domain/model/mapper/MessageInfoMapper.java:83-94 | null stays null; otherwise the same length with each element converted in order |
| MessageInfoMapper.ToMessageInfo | src/main/java/org/walrex/domain/model/mapper/MessageInfoMapper.java:25-48 | null stays null; id, subject and content copied, attachments and sender converted |
| MessageDetailsMapper.MapNombres | src/main/java/org/walrex/infrastructure/adapters/outbound/persistence/mapper/MessageDetailsMapper.java:81-87 | the placeholder without an employee, otherwise the given names as stored |
| MessageDetailsMapper.MapApellidos | src/main/java/org/walrex/infrastructure/adapters/outbound/persistence/mapper/MessageDetailsMapper.java:92-100 | never null; the placeholder without an employee; otherwise the surnames (null read as "") joined by one space, minus padding of characters up to U+0020 on each side, with no such character at either end |
| MessageDetailsMapper.ApellidosAreJoinedSurnamesUnpadded | src/main/java/org/walrex/infrastructure/adapters/outbound/persistence/mapper/MessageDetailsMapper.java:92-100 | any text without a blank at either end that is the joined surnames minus strippable padding is the result, so the characterisation above is unique |
| MessageDetailsMapper.NoSurnamesGiveEmpty | src/main/java/org/walrex/infrastructure/adapters/outbound/persistence/mapper/MessageDetailsMapper.java:92-100 | an employee without surnames maps to "", not the placeholder |
| MessageDetailsMapper.SingleSurnameTrimmed | src/main/java/org/walrex/infrastructure/adapters/outbound/persistence/mapper/MessageDetailsMapper.java:92-100 | a single surname comes back trimmed, without the joining space |
| MessageDetailsMapper.TwoSurnamesJoined | src/main/java/org/walrex/infrastructure/adapters/outbound/persistence/mapper/MessageDetailsMapper.java:92-100 | two unpadded surnames come back joined by one space |
| MessageDetailsMapper.OffsetDateTimeToLocalDate | src/main/java/org/walrex/infrastructure/adapters/outbound/persistence/mapper/MessageDetailsMapper.java:105-108 | null stays null; otherwise the date on the value's own clock |
| MessageDetailsMapper.LocalDateTimeToLocalDate | src/main/java/org/walrex/infrastructure/adapters/outbound/persistence/mapper/MessageDetailsMapper.java:113-116 | null stays null; otherwise the date the value falls on |
| MessageDetailsMapper.OffsetDecidesTheDate | src/main/java/org/walrex/infrastructure/adapters/outbound/persistence/mapper/MessageDetailsMapper.java:105-108 | one instant seen from two offsets can fall on two dates |
| InboxPersistence.GetSenderName | src/main/java/org/walrex/infrastructure/adapters/outbound/persistence/adapter/MessageInboxPersistenceAdapter.java:149-153 | "User #" followed by the printed id, or "null" |
| InboxPersistence.SenderNameNamesTheSender | src/main/java/org/walrex/infrastructure/adapters/outbound/persistence/adapter/MessageInboxPersistenceAdapter.java:149-153 | the text after "User #" parses back to the sender id |
| InboxPersistence.SenderNamesDistinct | src/main/java/org/walrex/infrastructure/adapters/outbound/persistence/adapter/MessageInboxPersistenceAdapter.java:149-153 | different senders, null included, get different names |
| InboxPersistence.ClassifyElapsed | src/main/java/org/walrex/infrastructure/adapters/outbound/persistence/adapter/MessageInboxPersistenceAdapter.java:170-193 | the bucket and count follow the truncating divisions by 60, 3600, a day, a week and 30 days, and the thresholds 60, 60, 24, 7, 30, 365 |
| InboxPersistence.FormatTimeReceived | src/main/java/org/walrex/infrastructure/adapters/outbound/persistence/adapter/MessageInboxPersistenceAdapter.java:162-194 | "Desconocido" for null; below 60 s the seconds (negative ones included), then whole minutes below an hour, hours below a day, days below a week, weeks below 30 days and 30-day months below 365 days, each as "Hace N unit" with the plural suffix; the formatted date from a year on |
| InboxPersistence.AgoPluralRule | src/main/java/org/walrex/infrastructure/adapters/outbound/persistence/adapter/MessageInboxPersistenceAdapter.java:176-188 | the text is "Hace 1 unit" exactly for a count of one; every other count ends with the plural suffix |
| InboxPersistence.AgoDeterminesCount | src/main/java/org/walrex/infrastructure/adapters/outbound/persistence/adapter/MessageInboxPersistenceAdapter.java:176-188 | within one unit the text determines the count |
| InboxPersistence.SecondsExamples | src/main/java/org/walrex/infrastructure/adapters/outbound/persistence/adapter/MessageInboxPersistenceAdapter.java:175-176 | one second reads "Hace 1 segundo"; an instant five seconds in the future reads "Hace -5 segundos" |
| InboxPersistence.MinuteExample | src/main/java/org/walrex/infrastructure/adapters/outbound/persistence/adapter/MessageInboxPersistenceAdapter.java:177-178 | sixty seconds read "Hace 1 minuto" |
| InboxPersistence.WeekAndMonthExamples | src/main/java/org/walrex/infrastructure/adapters/outbound/persistence/adapter/MessageInboxPersistenceAdapter.java:183-188 | 29 days read four weeks and 364 days twelve months |
| InboxPersistence.MapToDomain | src/main/java/org/walrex/infrastructure/adapters/outbound/persistence/adapter/MessageInboxPersistenceAdapter.java:128-140 | a missing message or id throws a NullPointerException; otherwise the item with the narrowed id, the row's flag, subject, attachment count (0 for null), sender name and times |
| InboxPersistence.MappedItemKeepsFlags | src/main/java/org/walrex/infrastructure/adapters/outbound/persistence/adapter/MessageInboxPersistenceAdapter.java:128-140 | the item is read and has attachments exactly as its row |
| InboxPersistence.IdIsNarrowed | src/main/java/org/walrex/infrastructure/adapters/outbound/persistence/adapter/MessageInboxPersistenceAdapter.java:132 | a long id of 2^32 + 5 shows as 5 |
| InboxPersistence.MapAll | src/main/java/org/walrex/infrastructure/adapters/outbound/persistence/adapter/MessageInboxPersistenceAdapter.java:84-86 | succeeds exactly when every row maps; then one item per row, in row order; otherwise the NullPointerException |
| InboxPersistence.FindMessagesByUser | src/main/java/org/walrex/infrastructure/adapters/outbound/persistence/adapter/MessageInboxPersistenceAdapter.java:62-120 | paged: the page of mapped rows with the counted total; unpaged: one page of every row; a failed query's error propagates, and a row that does not map fails the call with a NullPointerException |
| InboxPersistence.UnpagedFindIsOnePage | src/main/java/org/walrex/infrastructure/adapters/outbound/persistence/adapter/MessageInboxPersistenceAdapter.java:97-119 | without a page the result is one page holding every row |
| InboxPersistence.GetDetailMessageById | src/main/java/org/walrex/infrastructure/adapters/outbound/persistence/adapter/MessageInboxPersistenceAdapter.java:203-219 | a null id throws a NullPointerException; every other id fails as not implemented |
| InboxService.ConvertToPageable | src/main/java/org/walrex/domain/service/MessageInboxService.java:82-89 | no page gives (0, 20); a page converts exactly when Pageable.of accepts it, keeping index and size |
| InboxService.PortAnswer | src/main/java/org/walrex/domain/service/MessageInboxService.java:61-64 | the supplier's answer is the port's result, never null, or its failure |
| InboxService.UnpagedAnswerServedToFirstPage | src/main/java/org/walrex/domain/service/MessageInboxService.java:48-89 | after an unpaged request, page 0 of size 20 is a hit that returns the unpaged list |
| InboxService.MessageInboxService.constructor | src/main/java/org/walrex/domain/service/MessageInboxService.java:32-36 | a service over the given port and adapter |
| InboxService.MessageInboxService.GetMessageByUser | src/main/java/org/walrex/domain/service/MessageInboxService.java:48-73 | a rejected page fails without touching the cache; otherwise getOrFetch with the port as supplier |
| InboxService.MessageInboxService.InvalidateUserCache | src/main/java/org/walrex/domain/service/MessageInboxService.java:98-107 | the adapter's outcome unchanged: a failing KEYS fails with the store's error; no matching key gives 0 without a DEL; otherwise one DEL of exactly the user's keys, failing exactly when that command fails, else the count removed |
| InboxResource.CheckUserId | src/main/java/org/walrex/infrastructure/adapters/inbound/rest/MessageInboxResource.java:98-118 | a null or blank header is "missing"; otherwise the parsed int, or "invalid" when parseInt rejects it |
| InboxResource.ValidateInboxRequest | src/main/java/org/walrex/infrastructure/adapters/inbound/rest/MessageInboxResource.java:98-146 | header checks first, then with both parameters present the page and then the size in 1..100; accepted pages are the given ones |
| InboxResource.AcceptedPagesConvert | src/main/java/org/walrex/infrastructure/adapters/inbound/rest/MessageInboxResource.java:121-142 | every page the resource lets through is one Pageable.of accepts |
| InboxResource.MissingHeaderReportedFirst | src/main/java/org/walrex/infrastructure/adapters/inbound/rest/MessageInboxResource.java:98-105 | a missing or blank header wins over every other error |
| InboxResource.PaddedUserIdRejected | src/main/java/org/walrex/infrastructure/adapters/inbound/rest/MessageInboxResource.java:108-118 | " 42" passes the blank test but is an invalid user id |
| InboxResource.PageCheckedBeforeSize | src/main/java/org/walrex/infrastructure/adapters/inbound/rest/MessageInboxResource.java:121-140 | the page is checked before the size, and a parameter given alone is ignored |
| InboxResource.InboxResponse | src/main/java/org/walrex/infrastructure/adapters/inbound/rest/MessageInboxResource.java:151-180 | a failure is 500 "Error fetching messages: " + message; a result is 200 with its DTOs and its page, size and count |
| InboxResource.ResponseItemsRoundTrip | src/main/java/org/walrex/infrastructure/adapters/inbound/rest/MessageInboxResource.java:157-167 | the DTOs of a 200 response convert back to exactly the result's items |
| InboxResource.ResponseMetadataMatchesResult | src/main/java/org/walrex/infrastructure/adapters/inbound/rest/MessageInboxResource.java:162-167 | for a paginated result the envelope's page metadata equals the result's |
| InboxResource.StoreFailureMessage | src/main/java/org/walrex/infrastructure/adapters/inbound/rest/MessageInboxResource.java:175-180 | a store failure reaches the client as 500 naming the store's message |
| InboxResource.GetMessageInbox | src/main/java/org/walrex/infrastructure/adapters/inbound/rest/MessageInboxResource.java:76-181 | a rejected request gets its 400 and leaves the cache alone; an accepted one gets the response to the cache-aside outcome of the use case, and the cache entries and the commands sent to Redis are exactly those of that outcome |
| InboxResource.GetMessageById | src/main/java/org/walrex/infrastructure/adapters/inbound/rest/MessageInboxResource.java:221-276 | the user-id checks, then "Missing message ID"; every valid request is 501 |
| JavaInts.Wrap32 | src/main/java/org/walrex/infrastructure/adapters/outbound/persistence/adapter/MessageInboxPersistenceAdapter.java:132 | the int congruent to x modulo 2^32; x itself when x fits |
| JavaInts.NatDecimalRoundTrip | src/main/java/org/walrex/infrastructure/adapters/outbound/persistence/adapter/MessageInboxPersistenceAdapter.java:152 | the printed digits of n denote n |
| JavaInts.IntToDecimalInjective | src/main/java/org/walrex/infrastructure/adapters/outbound/cache/MessageCacheAdapter.java:60 | two ints print alike only when equal |
| JavaInts.ParseIntOfDecimal | src/main/java/org/walrex/infrastructure/adapters/inbound/rest/MessageInboxResource.java:110 | Integer.parseInt of a printed int gives it back |
| JavaStrings.Trim | src/main/java/org/walrex/infrastructure/adapters/inbound/rest/MessageInboxResource.java:98 | the result is empty exactly when every character is up to U+0020, otherwise neither starts nor ends with one, and is s itself when s has none at either end |
| JavaStrings.TrimRemovesPadding | src/main/java/org/walrex/infrastructure/adapters/outbound/persistence/mapper/MessageDetailsMapper.java:99 | trim removes nothing but characters up to U+0020 on either side |
| JavaStrings.TrimIgnoresPadding | src/main/java/org/walrex/infrastructure/adapters/outbound/persistence/mapper/MessageDetailsMapper.java:99 | padding on either side does not change trim |
| JavaStrings.TrimIdempotent | src/main/java/org/walrex/infrastructure/adapters/outbound/persistence/mapper/MessageDetailsMapper.java:99 | trim of trim is trim |
| JavaStrings.LastIndexOf | src/main/java/org/walrex/infrastructure/adapters/outbound/persistence/entity/AttachmentEntity.java:54 | the index of the last occurrence of the character |

## Left out

- Pagination.PagedResult: the `data` list is never null in the model. In Java, a cached JSON without a `"data"` field (or with `"data": null`) decodes through the `@JsonCreator` constructor to a result with a null list; the adapter counts it as a hit, and the request then fails with a NullPointerException in `MessageInboxService` (`getData().size()`) and the resource answers 500. The model's `JsonCodec.read` can only yield results with a list, so this corrupt-entry path is not represented.
- Kafka, Consul, the write side of messaging, logging, metrics and thread scheduling are not modelled. The core's reactive pipelines are modelled as sequential calls.
- Repositories and their HQL queries are not modelled. The persistence adapter receives their answers as parameters: the rows, the count, and their failures.
- Panache's own page validation is left out: `Page.of` is a plain pair in this model.
- When both combined queries of the paged read fail, which failure Mutiny reports depends on timing. `InboxPersistence.FindMessagesByUser` reports the rows' failure first.
- InboxService.ConvertToPageable: the IllegalArgumentException of `Pageable.of` is thrown synchronously in Java before any `Uni` exists. The model returns it as a `Failure` that reaches the resource's 500 handler. No input accepted by the resource reaches this branch (`InboxResource.AcceptedPagesConvert`).
- InboxResource.InboxResponse: a null `PagedResult` would throw inside `map`. The model answers it with the 500 whose message is "null".
- The MapStruct-generated method bodies (`MessageDetailsMapper.java:31-76`) are not modelled. Only the hand-written default methods are.
- MD5 and Jackson are not modelled on real bytes: MD5 is a digest function value, and JSON is a codec pair.
- Pagination.CeilDiv: the source divides doubles and rounds up, which is exact only below 2^53 elements. The model divides exactly.
- Redis key expiry and the order of KEYS replies are not modelled: an entry stores its TTL and is never evicted.
- MessageCache.MessageCacheAdapter.InvalidateUserCache returns an unbounded count, not a `long`.
- Null `userId` and `pageable` arguments to the cache adapter are excluded by the types. The resource never passes them.
- Nanoseconds in `Duration.getSeconds` and time zones other than a fixed offset are not modelled.
- Only ASCII case folding is modelled: `toLowerCase` and `equalsIgnoreCase` ignore locale rules.
- The `recipient` relation of `MessageRecipientEntity` to `UsuarioEntity` is not modelled, and neither are the JPA lazy-loading proxies.
- Entities.MessageEntity.AddRecipient: a null argument throws after the list has already changed. The model's types exclude null here, and the same holds for the other three list helpers.
- Entities.AttachmentEntity.IsImage: this and the other kind tests are stated on the file name, through `Entities.IsImageName` and the functions next to it.
- Errors.Message: a NullPointerException's message is modelled as null. From JDK 15 on, the JVM supplies a descriptive message, so the 500 body for a row without a message or message id differs from "Error fetching messages: null". The schema's NOT NULL foreign key and primary key exclude such rows.
- JavaInts.ParseInt: only ASCII digits are read. `Integer.parseInt` also accepts other Unicode decimal digits, which an HTTP header in Latin-1 cannot carry.
- InboxPersistence.FindMessagesByUser: one `now` serves every row, where the source reads the clock once per row inside `formatTimeReceived`.
