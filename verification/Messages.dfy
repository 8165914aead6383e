/** The protobuf messages the server stores (proto/feed.proto, proto/api.proto): the fields
    its logic reads or writes. Marshalling is the constructor of Value, unmarshalling the
    match on it; a row that holds another message does not unmarshal. */
module Messages {
  import opened Bytes

  datatype Feed = Feed(id: text, name: text, kind: text, picture: text)

  datatype Like = Like(date: text, from: Feed)

  datatype Comment = Comment(id: text, date: text, body: text, from: Feed)

  datatype Entry = Entry(
    id: text,
    date: text,
    body: text,
    from: Feed,
    comments: seq<Comment>,
    likes: seq<Like>,
    profileUuid: text)

  datatype Profile = Profile(uuid: text, id: text, name: text, kind: text, picture: text, deleted: bool)

  datatype OAuthUser = OAuthUser(uuid: text, userId: text, provider: text, name: text, accessToken: text)

  /** `payload` stands for the fields the queue only carries along. */
  datatype FeedJob = FeedJob(
    key: text,
    id: text,
    remoteKey: text,
    targetId: text,
    worker: text,
    status: text,
    created: int,
    updated: int,
    maxLimit: int,
    payload: text)

  datatype Value =
    | EntryRow(entry: Entry)
    | EntryKeyRow(key: seq<byte>)
    | JobRow(job: FeedJob)
    | ProfileRow(profile: Profile)
    | UuidRow(uuid: seq<byte>)
    | OAuthRow(user: OAuthUser)
    | IndexCacheRow(keys: seq<text>)

  const EMPTY_FEED := Feed([], [], [], [])
  const EMPTY_ENTRY := Entry([], [], [], EMPTY_FEED, [], [], [])
  const EMPTY_PROFILE := Profile([], [], [], [], [], false)
  const EMPTY_OAUTH_USER := OAuthUser([], [], [], [], [])
}
