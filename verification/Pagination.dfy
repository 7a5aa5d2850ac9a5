/** internal/store/pagination.go, and the cursor helpers of internal/server/errors.go. */
module Pagination {
  import opened Wrappers
  import opened Uuids
  import Base64Url

  type Int32 = n: int | -0x8000_0000 <= n < 0x8000_0000

  const DEFAULT_LIST_PAGE_SIZE: Int32 := 50
  const MAX_LIST_PAGE_SIZE: Int32 := 100

  datatype PageCursor = PageCursor(afterId: Uuid)

  function NormalizePageSize(size: Int32): (limit: Int32)
    ensures 1 <= limit <= MAX_LIST_PAGE_SIZE
    ensures 1 <= size <= MAX_LIST_PAGE_SIZE ==> limit == size
    ensures size <= 0 ==> limit == DEFAULT_LIST_PAGE_SIZE
    ensures size > MAX_LIST_PAGE_SIZE ==> limit == MAX_LIST_PAGE_SIZE
  {
    if size <= 0 then DEFAULT_LIST_PAGE_SIZE
    else if size > MAX_LIST_PAGE_SIZE then MAX_LIST_PAGE_SIZE
    else size
  }

  predicate IsByteText(s: string) {
    forall i :: 0 <= i < |s| ==> s[i] as int < 256
  }

  function BytesOf(s: string): seq<Base64Url.Byte>
    requires IsByteText(s)
  {
    seq(|s|, i requires 0 <= i < |s| => s[i] as int)
  }

  function TextOf(bytes: seq<Base64Url.Byte>): string {
    seq(|bytes|, i requires 0 <= i < |bytes| => bytes[i] as char)
  }

  lemma IdTextIsByteText(id: Uuid)
    ensures IsByteText(ToText(id))
  {
  }

  function EncodePageToken(id: Uuid): string {
    IdTextIsByteText(id);
    Base64Url.Encode(BytesOf(ToText(id)))
  }

  function DecodePageToken(token: string): Option<Uuid> {
    if token == "" then None
    else match Base64Url.Decode(token)
      case None => None
      case Some(bytes) => Parse(TextOf(bytes))
  }

  function DecodeCursor(token: string): Result<Option<PageCursor>> {
    if token == "" then Success(None)
    else match DecodePageToken(token)
      case None => Failure(InvalidPageToken)
      case Some(id) => Success(Some(PageCursor(id)))
  }

  function EncodeCursor(cursor: Option<PageCursor>): string {
    match cursor
    case None => ""
    case Some(c) => EncodePageToken(c.afterId)
  }

  lemma PageTokenRoundTrip(id: Uuid)
    ensures DecodePageToken(EncodePageToken(id)) == Some(id)
    ensures EncodePageToken(id) != ""
  {
    IdTextIsByteText(id);
    var bytes := BytesOf(ToText(id));
    Base64Url.RoundTrip(bytes);
    assert TextOf(bytes) == ToText(id);
    ParseToText(id);
    assert Base64Url.Decode("") == Some([]);
  }

  /** A client that sends a token back resumes at exactly the cursor it was
      given, the absent cursor included. */
  lemma CursorRoundTrip(cursor: Option<PageCursor>)
    ensures DecodeCursor(EncodeCursor(cursor)) == Success(cursor)
  {
    if cursor.Some? {
      PageTokenRoundTrip(cursor.value.afterId);
    }
  }

  /** Distinct cursors never share a token. */
  lemma CursorsAreTold(a: Option<PageCursor>, b: Option<PageCursor>)
    requires EncodeCursor(a) == EncodeCursor(b)
    ensures a == b
  {
    CursorRoundTrip(a);
    CursorRoundTrip(b);
  }

  /** Only the empty token is the absent cursor, and a refused token is an invalid one. */
  lemma CursorAnswers(token: string)
    ensures DecodeCursor(token) == Success(None) <==> token == ""
    ensures forall id :: DecodeCursor(token) == Success(Some(PageCursor(id))) <==> DecodePageToken(token) == Some(id)
    ensures DecodeCursor(token).Failure? ==> DecodeCursor(token).error == InvalidPageToken
  {
    hide Base64Url.Decode, Parse;
  }

  lemma ForeignTokenRefused(token: string, i: nat)
    requires i < |token| && !Base64Url.InAlphabet(token[i]) && token[i] != '\n' && token[i] != '\r'
    ensures DecodeCursor(token) == Failure(InvalidPageToken)
  {
    Base64Url.ForeignCharacterRefused(token, i);
  }
}
