/** The admin login as the object it is: an attempt that nothing interrupts takes exactly the
    steps of LoginProtocol, on the limiters' own data. */
module LoginHandler {
  import opened SlidingWindow
  import opened LoginProtocol

  /** How the attempt ends once both limiters admit it. */
  datatype Body = BadRequest | WrongPassword | RightPassword

  class Login {
    const limiter: Limiter
    const globalFails: GlobalCounter

    constructor (limiter: Limiter, globalFails: GlobalCounter)
      ensures this.limiter == limiter && this.globalFails == globalFails
    {
      this.limiter, this.globalFails := limiter, globalFails;
    }

    ghost function Settings(): Config {
      Config(limiter.limit, limiter.window, globalFails.max, globalFails.window)
    }

    /** The limiters' data, with no attempt under way. */
    ghost function Idle(now: int): State
      reads limiter, globalFails
    {
      State(limiter.counts, globalFails.times, map[], now, map[], [])
    }

    method HandleLogin(ip: string, body: Body, now: int) returns (status: int)
      modifies limiter, globalFails
      ensures var asked := Apply(Settings(), Apply(Settings(), old(Idle(now)), AskIp(0, ip)), AskGlobal(0));
              var end := if body.WrongPassword? then Apply(Settings(), Apply(Settings(), asked, RecordIp(0)), RecordGlobal(0))
                         else Apply(Settings(), asked, Finish(0));
              && (status == 429 <==> asked.attempts == map[])
              && (status == 401 <==> asked.attempts != map[] && body.WrongPassword?)
              && (status == 200 <==> asked.attempts != map[] && body.RightPassword?)
              && limiter.counts == end.counts && globalFails.times == end.times && end.attempts == map[]
    {
      var allowed := limiter.Allow(ip, now);
      if allowed {
        allowed := globalFails.Allow(now);
      }
      if !allowed {
        return 429;
      }
      assert Apply(Settings(), Apply(Settings(), old(Idle(now)), AskIp(0, ip)), AskGlobal(0)).attempts == map[0 := Admitted(ip)];
      if body.BadRequest? {
        return 400;
      }
      if body.WrongPassword? {
        limiter.RecordFailure(ip, now);
        globalFails.Record(now);
        return 401;
      }
      return 200;
    }
  }
}
