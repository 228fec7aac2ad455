/**
 * The response envelope: `ApiMessage` normalises its keyword arguments,
 * `http_format` shapes the body, and the builders fix code and status.
 */
module Messages {

  /** JSON values as they travel through the envelope. */
  datatype Json =
    | JNull
    | JBool(b: bool)
    | JInt(i: int)
    | JStr(s: string)
    | JList(items: seq<Json>)
    | JDict(fields: map<string, Json>)

  /** An `ApiMessage` once constructed: messages are always a list. */
  datatype ApiMessage = ApiMessage(code: Json, status: Json, messages: seq<Json>, content: Json)

  /** `kwargs.get(key, default)`. */
  function Get(kwargs: map<string, Json>, key: string, default: Json): (v: Json)
  {
    if key in kwargs then kwargs[key] else default
  }

  /** A messages value made a list: a list is kept, anything else is wrapped. */
  function AsList(messages: Json): (r: seq<Json>)
    ensures messages.JList? ==> r == messages.items
    ensures !messages.JList? ==> r == [messages]
  {
    if messages.JList? then messages.items else [messages]
  }

  /**
   * `ApiMessage(**kwargs)`: code 200, status 'OK', no messages and no content unless
   * given; a messages value that is not a list becomes a one-element list.
   */
  function NewMessage(kwargs: map<string, Json>): (m: ApiMessage)
    ensures m.code == (if "code" in kwargs then kwargs["code"] else JInt(200))
    ensures m.status == (if "status" in kwargs then kwargs["status"] else JStr("OK"))
    ensures "messages" !in kwargs ==> m.messages == []
    ensures "messages" in kwargs ==> m.messages == AsList(kwargs["messages"])
    ensures m.content == (if "content" in kwargs then kwargs["content"] else JNull)
  {
    var messages := Get(kwargs, "messages", JList([]));
    ApiMessage(Get(kwargs, "code", JInt(200)), Get(kwargs, "status", JStr("OK")), AsList(messages),
               Get(kwargs, "content", JNull))
  }

  /** The body dictionary of `http_format`. */
  function Body(m: ApiMessage): (body: map<string, Json>)
    ensures "code" in body && body["code"] == m.code
    ensures "status" in body && body["status"] == m.status
    ensures "messages" in body && body["messages"] == JList(m.messages)
    ensures "content" in body <==> m.content != JNull
    ensures "content" in body ==> body["content"] == m.content
    ensures body.Keys <= {"code", "status", "messages", "content"}
  {
    var json := map["code" := m.code, "status" := m.status, "messages" := JList(m.messages)];
    if m.content != JNull then json["content" := m.content] else json
  }

  /** `http_format` without the JSON encoding: the body and the status code sent with it. */
  function HttpFormat(m: ApiMessage): (r: (Json, Json))
    ensures r.0 == JDict(Body(m))
    ensures r.1 == m.code
  {
    (JDict(Body(m)), m.code)
  }

  /** The body of a message, read back as keyword arguments, gives the same message. */
  lemma BodyRoundTrip(m: ApiMessage)
    ensures NewMessage(Body(m)) == m
  {
  }

  /** Constructing is idempotent: a constructed message's body rebuilds it unchanged. */
  lemma {:induction false} NewMessageIdempotent(kwargs: map<string, Json>)
    ensures NewMessage(Body(NewMessage(kwargs))) == NewMessage(kwargs)
  {
    BodyRoundTrip(NewMessage(kwargs));
  }

  /** `MessageBuilder.build_message`: every keyword is passed, so null messages become [null]. */
  function Build(code: int, status: string, messages: Json, content: Json): (m: ApiMessage)
    ensures m.code == JInt(code) && m.status == JStr(status)
    ensures m.messages == AsList(messages) && m.content == content
  {
    NewMessage(map["code" := JInt(code), "status" := JStr(status), "messages" := messages, "content" := content])
  }

  function Ok(messages: Json, content: Json): (m: ApiMessage)
    ensures m.code == JInt(200) && m.status == JStr("OK")
    ensures m.messages == AsList(messages) && m.content == content
  {
    Build(200, "OK", messages, content)
  }

  function Created(messages: Json, content: Json): (m: ApiMessage)
    ensures m.code == JInt(201) && m.status == JStr("CREATED")
    ensures m.messages == AsList(messages) && m.content == content
  {
    Build(201, "CREATED", messages, content)
  }

  function BadRequest(messages: Json, content: Json): (m: ApiMessage)
    ensures m.code == JInt(400) && m.status == JStr("BAD REQUEST")
    ensures m.messages == AsList(messages) && m.content == content
  {
    Build(400, "BAD REQUEST", messages, content)
  }

  function Unauthorized(messages: Json, content: Json): (m: ApiMessage)
    ensures m.code == JInt(401) && m.status == JStr("UNAUTHORIZED")
    ensures m.messages == AsList(messages) && m.content == content
  {
    Build(401, "UNAUTHORIZED", messages, content)
  }

  function NotFound(messages: Json, content: Json): (m: ApiMessage)
    ensures m.code == JInt(404) && m.status == JStr("NOT FOUND")
    ensures m.messages == AsList(messages) && m.content == content
  {
    Build(404, "NOT FOUND", messages, content)
  }

  /**
   * The builder table, with the defaults of the builders (null messages, null
   * content): each sends its own code, its status, a body without content, and the
   * messages list [null].
   */
  lemma BuilderDefaults()
    ensures HttpFormat(Ok(JNull, JNull)).1 == JInt(200) && Ok(JNull, JNull).status == JStr("OK")
    ensures HttpFormat(Created(JNull, JNull)).1 == JInt(201) && Created(JNull, JNull).status == JStr("CREATED")
    ensures HttpFormat(BadRequest(JNull, JNull)).1 == JInt(400) && BadRequest(JNull, JNull).status == JStr("BAD REQUEST")
    ensures HttpFormat(Unauthorized(JNull, JNull)).1 == JInt(401) && Unauthorized(JNull, JNull).status == JStr("UNAUTHORIZED")
    ensures HttpFormat(NotFound(JNull, JNull)).1 == JInt(404) && NotFound(JNull, JNull).status == JStr("NOT FOUND")
    ensures forall m :: m in [Ok(JNull, JNull), Created(JNull, JNull), BadRequest(JNull, JNull),
                              Unauthorized(JNull, JNull), NotFound(JNull, JNull)] ==>
              m.messages == [JNull] && "content" !in Body(m)
  {
  }

  /** A single message string is sent as a one-element list; a list of them as itself. */
  lemma MessagesNormalised(code: int, status: string, text: string, texts: seq<Json>, content: Json)
    ensures Build(code, status, JStr(text), content).messages == [JStr(text)]
    ensures Build(code, status, JList(texts), content).messages == texts
  {
  }
}
