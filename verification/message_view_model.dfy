/** The message list and detail state (`MessageViewModel`): the list
    mirrors the table's newest-first query; a message can be opened by id
    and marked read. Ids arrive as text and are parsed as UUIDs, which
    fails on malformed text. */
module MessageList {
  import opened Wrappers
  import opened Rows
  import Uuids
  import opened Messages

  /** `find { it.id == uuid }` on the list. */
  function FindInList(messages: seq<Message>, id: Uuids.Uuid): (r: Option<Message>)
    ensures r.Some? <==> exists m :: m in messages && m.id == id
    ensures r.Some? ==> r.value in messages && r.value.id == id
  {
    FindBy(messages, id, MessageIdOf)
  }

  /** The copy written back by `markMessageAsRead`. */
  function MarkedRead(m: Message): (r: Message)
    ensures r.isRead
    ensures r.id == m.id && r.title == m.title && r.sender == m.sender && r.content == m.content
    ensures r.category == m.category && r.time == m.time
  {
    m.(isRead := true)
  }

  /** Marking read twice writes what marking once does. */
  lemma MarkedReadIdempotent(m: Message)
    ensures MarkedRead(MarkedRead(m)) == MarkedRead(m)
    ensures m.isRead ==> MarkedRead(m) == m
  {
  }

  class MessageViewModel {
    const dao: MessageDao
    var messages: seq<Message>
    var currentMessage: Option<Message>

    constructor (dao: MessageDao)
      ensures this.dao == dao && messages == [] && currentMessage == None
    {
      this.dao := dao;
      messages := [];
      currentMessage := None;
    }

    /** An emission of the collected query: the list becomes the latest
        result. */
    method Collect()
      modifies this
      ensures messages == AllMessages(dao.messages) && currentMessage == old(currentMessage)
    {
      messages := dao.GetAllMessages();
    }

    /** `getMessageById`: malformed text fails and changes nothing; a found
        message becomes current; an unknown id keeps the current one. */
    method GetMessageById(messageId: string) returns (r: Result<bool>)
      modifies this
      ensures r.Err? <==> !Uuids.Canonical(messageId)
      ensures r.Err? ==> currentMessage == old(currentMessage)
      ensures r.Ok? ==> var found := dao.GetMessageById(Uuids.FromString(messageId).value);
        r.value == found.Some?
        && currentMessage == (if found.Some? then found else old(currentMessage))
      ensures messages == old(messages)
    {
      var uuid := Uuids.FromString(messageId);
      if uuid.Err? {
        return Err(uuid.error);
      }
      var message := dao.GetMessageById(uuid.value);
      if message.Some? {
        currentMessage := message;
      }
      r := Ok(message.Some?);
    }

    /** `markMessageAsRead`: the listed message with that id is written
        back read, every other field as listed; an id not in the list
        writes nothing; malformed text fails and writes nothing. */
    method MarkMessageAsRead(messageId: string) returns (r: Result<bool>)
      requires dao.Valid()
      modifies dao
      ensures dao.Valid()
      ensures r.Err? <==> !Uuids.Canonical(messageId)
      ensures r.Err? ==> dao.messages == old(dao.messages)
      ensures r.Ok? ==> var found := FindInList(messages, Uuids.FromString(messageId).value);
        r.value == found.Some?
        && dao.messages == (if found.Some? then Replace(old(dao.messages), MarkedRead(found.value), MessageIdOf)
                            else old(dao.messages))
    {
      var uuid := Uuids.FromString(messageId);
      if uuid.Err? {
        return Err(uuid.error);
      }
      var message := FindInList(messages, uuid.value);
      if message.Some? {
        dao.UpdateMessage(MarkedRead(message.value));
      }
      r := Ok(message.Some?);
    }
  }
}
