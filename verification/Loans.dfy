/**
 Loaned messages. A publisher or subscription remembers the messages it has
 lent out; a message belongs to its endpoint from the call that creates it to
 the call that gives it back, publishes it, or destroys the endpoint. The class
 is the endpoint with the set that the loan functions update, and the heap of
 ROS messages stands for create_ros_message and destroy_ros_message.
 */
module Loans {
  import opened Options
  import opened ReturnCodes
  import opened Taking

  /** The address of a message; addresses are used again. */
  type Message = nat

  class Heap {
    var live: set<Message>

    method Create(address: Option<Message>)
      requires address.Some? ==> address.value !in live
      modifies this
      ensures live == old(live) + if address.Some? then {address.value} else {}
    {
      if address.Some? {
        live := live + {address.value};
      }
    }

    /** Destroying a message that is not alive is an error of the program. */
    method Destroy(message: Message)
      requires message in live
      modifies this
      ensures live == old(live) - {message}
    {
      live := live - {message};
    }
  }

  class Endpoint {
    const heap: Heap
    var loaned: set<Message>

    constructor (heap: Heap)
      ensures this.heap == heap && loaned == {}
    {
      this.heap, loaned := heap, {};
    }

    ghost predicate Valid()
      reads this, heap
    {
      loaned <= heap.live
    }

    /** rmw_borrow_loaned_message; `address` is what the allocator gives, and
        `recorded` whether the set can grow. */
    method Borrow(address: Option<Message>, recorded: bool) returns (code: RmwCode, message: Option<Message>)
      requires Valid() && (address.Some? ==> address.value !in heap.live)
      modifies heap, `loaned
      ensures Valid()
      ensures code == if address.Some? && recorded then RmwOk else RmwBadAlloc
      ensures message == if code.RmwOk? then address else None
      ensures loaned == old(loaned) + if code.RmwOk? then {address.value} else {}
      ensures heap.live == old(heap.live) + if code.RmwOk? then {address.value} else {}
    {
      heap.Create(address);
      if address.None? {
        return RmwBadAlloc, None;
      }
      if !recorded {
        heap.Destroy(address.value);
        return RmwBadAlloc, None;
      }
      loaned := loaned + {address.value};
      return RmwOk, address;
    }

    /** rmw_return_loaned_message_from_publisher and _from_subscription. */
    method Return(message: Message) returns (code: RmwCode)
      requires Valid()
      modifies heap, `loaned
      ensures Valid()
      ensures code == if message in old(loaned) then RmwOk else RmwError
      ensures loaned == old(loaned) - {message}
      ensures heap.live == old(heap.live) - if message in old(loaned) then {message} else {}
    {
      if message !in loaned {
        return RmwError;
      }
      loaned := loaned - {message};
      heap.Destroy(message);
      return RmwOk;
    }

    /** rmw_publish_loaned_message: the loan ends even if publishing, which
        returns `published`, fails. */
    method PublishLoaned(message: Message, published: RmwCode) returns (code: RmwCode)
      requires Valid()
      modifies heap, `loaned
      ensures Valid()
      ensures code == if message in old(loaned) then published else RmwError
      ensures loaned == old(loaned) - {message}
      ensures heap.live == old(heap.live) - if message in old(loaned) then {message} else {}
    {
      if message !in loaned {
        return RmwError;
      }
      loaned := loaned - {message};
      code := published;
      heap.Destroy(message);
    }

    /** take_compatibility_loan: a message is lent exactly when a sample was
        taken, decoded and given back, and its publisher is known. */
    method TakeLoan<M>(subscription: Subscription<M>, address: Option<Message>, recorded: bool, wantInfo: bool)
      returns (code: RmwCode, message: Option<Message>)
      requires Valid() && (address.Some? ==> address.value !in heap.live)
      modifies heap, `loaned, subscription.reader
      ensures Valid()
      ensures subscription.reader.outstanding == old(subscription.reader.outstanding)
      ensures address.None? ==> code.RmwBadAlloc? && message.None? && subscription.Queue() == old(subscription.Queue())
      ensures address.Some? ==>
                subscription.Queue() == if old(subscription.Queue()) == [] then [] else old(subscription.Queue())[1..]
      ensures address.Some? && old(subscription.Queue()) == [] ==> code.RmwOk? && message.None?
      ensures address.Some? && old(subscription.Queue()) != [] ==>
                var reply := old(subscription.Queue())[0];
                if && reply.Sample() && reply.returned.DdsOk?
                   && reply.Meta().valid && subscription.accepts(reply.Data()) then
                  var lends := recorded && (wantInfo ==> reply.Meta().publication in subscription.peers.guids);
                  && (message.Some? <==> lends)
                  && code == if lends then RmwOk else if !recorded then RmwBadAlloc else RmwError
                else
                  && message.None?
                  && (if subscription.Idle(reply) && (reply.Sample() ==> reply.returned.DdsOk?)
                      then code.RmwOk? else code.RmwError?)
      ensures message.Some? ==> message == address
      ensures loaned == old(loaned) + if message.Some? then {message.value} else {}
      ensures heap.live == old(heap.live) + if message.Some? then {message.value} else {}
    {
      heap.Create(address);
      if address.None? {
        return RmwBadAlloc, None;
      }
      var result, loan := subscription.TakeVisibleSample();
      if !result.DdsOk? {
        heap.Destroy(address.value);
        return if result.DdsNoData? then RmwOk else RmwError, None;
      }
      var valid := loan.Meta().valid;
      var decoded := !valid || subscription.accepts(loan.Data());
      var returned := subscription.reader.ReturnLoan(loan);
      if !returned.DdsOk? || !decoded {
        heap.Destroy(address.value);
        return RmwError, None;
      }
      if !valid {
        heap.Destroy(address.value);
        return RmwOk, None;
      }
      if !recorded {
        heap.Destroy(address.value);
        return RmwBadAlloc, None;
      }
      loaned := loaned + {address.value};
      if wantInfo {
        var _, known := subscription.FillMessageInfo(loan.Meta());
        if !known {
          loaned := loaned - {address.value};
          heap.Destroy(address.value);
          return RmwError, None;
        }
      }
      return RmwOk, address;
    }

    /** What destroying the endpoint does with the messages still lent out. */
    method DestroyLoans()
      requires Valid()
      modifies heap, `loaned
      ensures loaned == {} && heap.live == old(heap.live) - old(loaned)
    {
      var rest := loaned;
      while rest != {}
        invariant rest <= loaned && loaned == old(loaned)
        invariant heap.live == old(heap.live) - (loaned - rest)
        decreases rest
      {
        var message :| message in rest;
        heap.Destroy(message);
        rest := rest - {message};
      }
      loaned := {};
    }
  }
}
