/** The three string-valued enumerations of field and expansion names a stream
    request may ask for. Each member's `Value()` is the string the enum member
    stands for; `FromValue` is the lookup by value (`TwitterStreamFields("geo")`
    in Python), and the lemmas show the two are inverse. */
module TwitterEnums {
  import opened Wrappers

  datatype TwitterStreamExpansion =
    | PollIds | MediaKeys | AuthorId | Username | PlaceId
    | InReplyToUserId | ReferencedTweetId | ReferencedTweetAuthorId
  {
    function Value(): string {
      match this
      case PollIds => "attachments.poll_ids"
      case MediaKeys => "attachments.media_keys"
      case AuthorId => "author_id"
      case Username => "entities.mentions.username"
      case PlaceId => "geo.place_id"
      case InReplyToUserId => "in_reply_to_user_id"
      case ReferencedTweetId => "referenced_tweets.id"
      case ReferencedTweetAuthorId => "referenced_tweets.id.author_id"
    }

    static function FromValue(s: string): (r: Option<TwitterStreamExpansion>)
      ensures r.Some? ==> r.value.Value() == s
    {
      if s == "attachments.poll_ids" then Some(PollIds)
      else if s == "attachments.media_keys" then Some(MediaKeys)
      else if s == "author_id" then Some(TwitterStreamExpansion.AuthorId)
      else if s == "entities.mentions.username" then Some(Username)
      else if s == "geo.place_id" then Some(PlaceId)
      else if s == "in_reply_to_user_id" then Some(InReplyToUserId)
      else if s == "referenced_tweets.id" then Some(ReferencedTweetId)
      else if s == "referenced_tweets.id.author_id" then Some(ReferencedTweetAuthorId)
      else None
    }
  }

  datatype TwitterStreamPlaceField =
    | ContainedWithin | Country | CountryCode | FullName | Geo | Id | Name | PlaceType
  {
    function Value(): string {
      match this
      case ContainedWithin => "contained_within"
      case Country => "country"
      case CountryCode => "country_code"
      case FullName => "full_name"
      case Geo => "geo"
      case Id => "id"
      case Name => "name"
      case PlaceType => "place_type"
    }

    static function FromValue(s: string): (r: Option<TwitterStreamPlaceField>)
      ensures r.Some? ==> r.value.Value() == s
    {
      if s == "contained_within" then Some(ContainedWithin)
      else if s == "country" then Some(Country)
      else if s == "country_code" then Some(CountryCode)
      else if s == "full_name" then Some(FullName)
      else if s == "geo" then Some(TwitterStreamPlaceField.Geo)
      else if s == "id" then Some(Id)
      else if s == "name" then Some(Name)
      else if s == "place_type" then Some(PlaceType)
      else None
    }
  }

  datatype TwitterStreamField = Attachments | AuthorId | Geo
  {
    function Value(): string {
      match this
      case Attachments => "attachments"
      case AuthorId => "author_id"
      case Geo => "geo"
    }

    static function FromValue(s: string): (r: Option<TwitterStreamField>)
      ensures r.Some? ==> r.value.Value() == s
    {
      if s == "attachments" then Some(Attachments)
      else if s == "author_id" then Some(TwitterStreamField.AuthorId)
      else if s == "geo" then Some(TwitterStreamField.Geo)
      else None
    }
  }

  /** Every expansion is found again by its value, so distinct members have
      distinct values. */
  lemma ExpansionValueRoundTrip(e: TwitterStreamExpansion)
    ensures TwitterStreamExpansion.FromValue(e.Value()) == Some(e)
  {
    match e
    case PollIds =>
    case MediaKeys =>
    case AuthorId =>
    case Username =>
    case PlaceId =>
    case InReplyToUserId =>
    case ReferencedTweetId =>
    case ReferencedTweetAuthorId =>
  }

  lemma PlaceFieldValueRoundTrip(f: TwitterStreamPlaceField)
    ensures TwitterStreamPlaceField.FromValue(f.Value()) == Some(f)
  {
  }

  lemma FieldValueRoundTrip(f: TwitterStreamField)
    ensures TwitterStreamField.FromValue(f.Value()) == Some(f)
  {
  }
}
