/** The primary ("command") database the controllers write, and the broker
    queue `data_sync` that `RabbitMQProducer::publish` appends to. */
module PrimaryDatabase {
  import opened Common
  import opened Schema

  class Database {
    var categories: CategoryTable
    var products: ProductTable

    constructor ()
      ensures categories == map[] && products == map[]
    {
      categories := map[];
      products := map[];
    }
  }

  /** The `data_sync` queue, seen as the messages published to it so far, in order. */
  class Outbox {
    var messages: seq<PhpValue>

    constructor ()
      ensures messages == []
    {
      messages := [];
    }

    /** `RabbitMQProducer::publish('data_sync', $data)`: either the message is
        appended, or the connection fails and the call throws (`fails`). */
    method Publish(message: PhpValue, fails: bool) returns (published: bool)
      modifies this
      ensures published == !fails
      ensures messages == if fails then old(messages) else old(messages) + [message]
    {
      if fails {
        published := false;
      } else {
        messages := messages + [message];
        published := true;
      }
    }
  }
}
