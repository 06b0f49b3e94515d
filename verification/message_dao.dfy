/** The `messages` table (`MessageDao`): messages keyed by UUID, kept in
    insertion order, listed newest first. The icon bitmap is not
    modelled; the time is in epoch seconds. */
module Messages {
  import opened Wrappers
  import opened Rows
  import Uuids

  datatype Message = Message(id: Uuids.Uuid, title: string, sender: string, content: string,
                             category: int, isRead: bool, time: int)

  function MessageIdOf(m: Message): Uuids.Uuid { m.id }

  /** The sort key of `ORDER BY time DESC`. */
  function NewestFirst(m: Message): int { -m.time }

  /** `getAllMessages`. Rows with equal times may come in any order; this
      model picks one. */
  function AllMessages(rows: seq<Message>): seq<Message> {
    SortBy(rows, NewestFirst)
  }

  /** The list holds every stored message exactly once, newest first. */
  lemma AllMessagesNewestFirst(rows: seq<Message>)
    ensures multiset(AllMessages(rows)) == multiset(rows)
    ensures forall i, j :: 0 <= i < j < |AllMessages(rows)| ==> AllMessages(rows)[i].time >= AllMessages(rows)[j].time
  {
    var r := AllMessages(rows);
    forall i, j | 0 <= i < j < |r|
      ensures r[i].time >= r[j].time
    {
      assert NewestFirst(r[i]) <= NewestFirst(r[j]);
    }
  }

  class MessageDao {
    var messages: seq<Message>

    predicate Valid()
      reads this
    {
      UniqueKeys(messages, MessageIdOf)
    }

    constructor ()
      ensures Valid() && messages == []
    {
      messages := [];
    }

    function GetAllMessages(): (r: seq<Message>)
      reads this
      ensures multiset(r) == multiset(messages)
      ensures forall i, j :: 0 <= i < j < |r| ==> r[i].time >= r[j].time
    {
      AllMessagesNewestFirst(messages);
      AllMessages(messages)
    }

    /** `getMessageById`: the message with that id, or none. */
    function GetMessageById(id: Uuids.Uuid): (r: Option<Message>)
      reads this
      ensures r.Some? <==> exists m :: m in messages && m.id == id
      ensures r.Some? ==> r.value in messages && r.value.id == id
    {
      FindBy(messages, id, MessageIdOf)
    }

    /** `updateMessage`: the stored message with the same id is rewritten;
        without one nothing changes. */
    method UpdateMessage(message: Message)
      requires Valid()
      modifies this
      ensures Valid() && messages == Replace(old(messages), message, MessageIdOf)
      ensures forall id :: (FindBy(messages, id, MessageIdOf)
        == if id == message.id && FindBy(old(messages), id, MessageIdOf).Some? then Some(message)
           else FindBy(old(messages), id, MessageIdOf))
    {
      forall id ensures FindBy(Replace(messages, message, MessageIdOf), id, MessageIdOf)
        == if id == message.id && FindBy(messages, id, MessageIdOf).Some? then Some(message)
           else FindBy(messages, id, MessageIdOf)
      {
        ReplaceThenFind(messages, message, MessageIdOf, id);
      }
      ReplaceThenFind(messages, message, MessageIdOf, message.id);
      messages := Replace(messages, message, MessageIdOf);
    }

    /** `insertMessage` (REPLACE): afterwards the message is the one stored
        under its id, and every other id finds what it found before. */
    method InsertMessage(message: Message)
      requires Valid()
      modifies this
      ensures Valid() && messages == Upsert(old(messages), message, MessageIdOf)
      ensures forall id :: (FindBy(messages, id, MessageIdOf)
        == if id == message.id then Some(message) else FindBy(old(messages), id, MessageIdOf))
    {
      forall id ensures FindBy(Upsert(messages, message, MessageIdOf), id, MessageIdOf)
        == if id == message.id then Some(message) else FindBy(messages, id, MessageIdOf)
      {
        UpsertThenFind(messages, message, MessageIdOf, id);
      }
      UpsertReplaces(messages, message, MessageIdOf);
      messages := Upsert(messages, message, MessageIdOf);
    }
  }
}
