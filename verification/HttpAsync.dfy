/**
  Asynchronous use of an HTTP session (components/httpClientLibrary/le_httpClientLib.c): the
  session object with the accounts of its requests.  Whatever is asked of it and whatever
  happens, every request is answered once, running, or given up.
 */
module HttpAsync {
  import opened Basics
  import opened HttpWire
  import opened HttpMachine
  import opened HttpClient

  class AsyncClient {
    const session: HttpSession
    var issued: nat
    ghost var current: Option<nat>
    ghost var dropped: set<nat>

    ghost function Account(): Client
      reads this, session
    {
      Client(session.Value(), issued, current, dropped)
    }

    ghost predicate Valid()
      reads this, session
    {
      Accounted(Account())
    }

    /** What the accounts mean for request number id. */
    lemma OneResult(id: nat)
      requires Valid()
      ensures Results(session.delivered, id) <= 1
      ensures id < issued && id !in dropped && current != Some(id) ==>
                Results(session.delivered, id) == 1
      ensures session.state == Idle && id < issued && id !in dropped ==>
                Results(session.delivered, id) == 1
    {
      assert Accounts(Account(), id) == if id < issued then 1 else 0;
    }

    constructor (g: Config)
      ensures fresh(session) && issued == 0 && session.sent == "" && Valid()
    {
      session := new HttpSession(g);
      issued, current, dropped := 0, None, {};
    }

    /** `le_httpClient_SendRequestAsync`, with a callback that reports as request `id`. */
    method Ask(c: Command, uri: string, fields: seq<FieldAnswer>, chunks: seq<ChunkAnswer>,
               w: World) returns (id: nat)
      requires Valid()
      modifies this, session
      ensures Valid() && id == old(issued) && issued == id + 1
      ensures Account() == Next(old(Account()), HttpMachine.Step.Ask(c, uri, fields, chunks, w))
      ensures session.delivered
              == match Refusal(old(session.Value()), c, uri, w)
                 case Some(r) => old(session.delivered) + [(id, r)]
                 case None => old(session.delivered)
    {
      StepAccounted(Account(), HttpMachine.Step.Ask(c, uri, fields, chunks, w));
      ghost var before := Account();
      id := issued;
      session.SendRequestAsync(c, uri, Some(id), fields, chunks, w);
      issued := issued + 1;
      if session.state == Idle {
        current, dropped := None, GivenUp(before);
      } else {
        current := Some(id);
      }
    }

    /** A socket event or a timeout: it gives no request up. */
    method Handles(h: Happening)
      requires Valid()
      modifies this, session
      ensures Valid() && Account() == Next(old(Account()), Happens(h))
      ensures dropped == old(dropped) && issued == old(issued)
      ensures old(current).Some? ==>
                session.delivered == match Verdict(old(session.Value()), h)
                                     case Some(r) => old(session.delivered) + [(old(current).value, r)]
                                     case None => old(session.delivered)
      ensures old(current).None? ==> session.delivered == old(session.delivered)
    {
      StepAccounted(Account(), Happens(h));
      match h {
        case Event(e, w) => session.StateMachine(e, w);
        case TimerExpires => session.TimeoutHandler();
      }
      if session.state == Idle {
        current := None;
      }
    }

    /** `le_httpClient_Stop`: gives up the running request, if there is one, without a result. */
    method StopAll()
      requires Valid()
      modifies this, session
      ensures Valid() && Account() == Next(old(Account()), UserStops)
      ensures session.state == Idle && session.delivered == old(session.delivered)
      ensures dropped == old(dropped) + if old(session.state) == Idle then {} else {old(current).value}
    {
      StepAccounted(Account(), UserStops);
      ghost var before := Account();
      session.Stop();
      current, dropped := None, GivenUp(before);
    }

    /** A whole run: no request has two results, and every one that is neither running nor given
        up has one. */
    method Drive(steps: seq<Step>)
      requires Valid()
      modifies this, session
      ensures Valid() && Account() == After(old(Account()), steps)
      ensures forall id: nat :: Results(session.delivered, id) <= 1
      ensures forall id: nat :: id < issued && id !in dropped && session.state == Idle ==>
                Results(session.delivered, id) == 1
    {
      var rest := steps;
      while rest != []
        invariant Valid() && After(Account(), rest) == After(old(Account()), steps)
      {
        match rest[0] {
          case Ask(c, uri, fields, chunks, w) =>
            var id := Ask(c, uri, fields, chunks, w);
          case Happens(h) => Handles(h);
          case UserStops => StopAll();
        }
        rest := rest[1..];
      }
      forall id: nat
        ensures Results(session.delivered, id) <= 1
        ensures id < issued && id !in dropped && session.state == Idle ==>
                  Results(session.delivered, id) == 1
      {
        OneResult(id);
      }
    }
  }
}
