/** The transient message queue (broker/queue/queue_transient.go over broker/queue/sync_queue.go), one
    critical section at a time; SyncQueue has the threads. */
module Queues {
  import opened Base
  import opened TransientLists

  class MessageQueue {
    const clientId: Text
    const list: TransientList  // messages sent and waiting for their acknowledgement
    var buffer: seq<Message>
    var closed: bool

    constructor (clientId: Text)
      ensures this.clientId == clientId && buffer == [] && !closed
      ensures fresh(list) && list.Valid() && list.View() == FRESH
    {
      this.clientId := clientId;
      list := new TransientList();
      buffer, closed := [], false;
    }

    /** An open queue with these messages waiting and these retained. */
    constructor Holding(clientId: Text, buffer: seq<Message>, shelf: Shelf)
      ensures this.clientId == clientId && this.buffer == buffer && !closed
      ensures fresh(list) && list.Valid() && list.View() == shelf
    {
      this.clientId := clientId;
      list := new TransientList.Holding(shelf);
      this.buffer, closed := buffer, false;
    }

    method Pushback(msg: Message)
      modifies this`buffer
      ensures buffer == if old(closed) then old(buffer) else old(buffer) + [msg]
    {
      if !closed {
        buffer := buffer + [msg];
      }
    }

    /** tryPop: an item, or an empty answer that is final (`ok`) once the queue is closed. */
    method TryPop() returns (r: Option<Message>, ok: bool)
      modifies this`buffer
      ensures old(buffer) != [] ==> r == Some(old(buffer)[0]) && ok && buffer == old(buffer)[1..]
      ensures old(buffer) == [] ==> r == None && ok == closed && buffer == []
    {
      if |buffer| > 0 {
        r, ok := Some(buffer[0]), true;
        buffer := buffer[1..];
      } else {
        r, ok := None, closed;
      }
    }
  }
}
