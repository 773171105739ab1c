/**
  The shared state of client registration (server/oauthresource.go): one in-flight entry per
  issuer, one record per registration with a done-channel, and the credential store. The
  class has one method per atomic section of clientCredentials, each stated against a function
  on the value of that state.
*/
module Registration {
  import opened Wrappers
  import opened TokenStore

  datatype Outcome = Registered(cc: ClientCredentials) | RegistrationFailed(error: string)

  /** A credRegistration: who leads it, what was written, and whether its channel is closed. */
  datatype Record = Record(leader: nat, issuer: string, outcome: Option<Outcome>, done: bool)

  datatype Client = Client(store: map<string, ClientCredentials>, credReg: map<string, nat>, regs: seq<Record>)

  /** Joining: the issuer's entry if there is one, else a new one that the caller leads. */
  function AfterJoin(c: Client, issuer: string, caller: nat): Client {
    if issuer in c.credReg then c
    else c.(credReg := c.credReg[issuer := |c.regs|], regs := c.regs + [Record(caller, issuer, None, false)])
  }

  function AfterWrite(c: Client, r: nat, o: Outcome): Client
    requires r < |c.regs|
  {
    c.(regs := c.regs[r := c.regs[r].(outcome := Some(o))])
  }

  function AfterClose(c: Client, r: nat): Client
    requires r < |c.regs|
  {
    c.(regs := c.regs[r := c.regs[r].(done := true)])
  }

  function AfterRetire(c: Client, issuer: string): Client {
    c.(credReg := c.credReg - {issuer})
  }

  function AfterSaveCredentials(c: Client, issuer: string, cc: ClientCredentials): Client {
    c.(store := c.store[issuer := cc])
  }

  class CredRegistration {
    ghost const id: nat
    ghost const leader: nat
    ghost const issuer: string
    var outcome: Option<Outcome>
    var done: bool

    constructor (ghost id: nat, ghost leader: nat, ghost issuer: string)
      ensures this.id == id && this.leader == leader && this.issuer == issuer
      ensures outcome == None && !done
    {
      this.id := id;
      this.leader := leader;
      this.issuer := issuer;
      outcome, done := None, false;
    }

    ghost function Value(): Record
      reads this
    {
      Record(leader, issuer, outcome, done)
    }
  }

  class ResourceClient {
    var store: map<string, ClientCredentials>
    var credReg: map<string, CredRegistration>
    ghost var regs: seq<CredRegistration>

    ghost predicate Valid()
      reads this, regs
    {
      && (forall k :: 0 <= k < |regs| ==> regs[k].id == k)
      && (forall s :: s in credReg ==> credReg[s] in regs)
    }

    ghost function Value(): Client
      reads this, regs
    {
      Client(store, map s | s in credReg :: credReg[s].id,
             seq(|regs|, k requires 0 <= k < |regs| reads this, regs => regs[k].Value()))
    }

    constructor ()
      ensures Valid() && Value() == Client(map[], map[], [])
    {
      store, credReg, regs := map[], map[], [];
    }

    method Join(issuer: string, ghost caller: nat) returns (reg: CredRegistration, leads: bool)
      requires Valid()
      modifies this
      ensures Valid() && Value() == AfterJoin(old(Value()), issuer, caller)
      ensures leads <==> issuer !in old(Value()).credReg
      ensures reg in regs && Value().credReg[issuer] == reg.id
    {
      if issuer in credReg {
        return credReg[issuer], false;
      }
      reg := new CredRegistration(|regs|, caller, issuer);
      credReg := credReg[issuer := reg];
      regs := regs + [reg];
      leads := true;
    }

    method Write(reg: CredRegistration, o: Outcome)
      requires Valid() && reg in regs
      modifies reg
      ensures Valid() && Value() == AfterWrite(old(Value()), reg.id, o)
    {
      reg.outcome := Some(o);
    }

    /** Closing a channel twice panics, so the caller must hold an open one. */
    method Close(reg: CredRegistration)
      requires Valid() && reg in regs && !reg.done
      modifies reg
      ensures Valid() && Value() == AfterClose(old(Value()), reg.id)
    {
      reg.done := true;
    }

    method Retire(issuer: string)
      requires Valid()
      modifies this
      ensures Valid() && Value() == AfterRetire(old(Value()), issuer)
    {
      credReg := credReg - {issuer};
    }

    method SaveCredentials(issuer: string, cc: ClientCredentials)
      requires Valid()
      modifies this
      ensures Valid() && Value() == AfterSaveCredentials(old(Value()), issuer, cc)
    {
      store := store[issuer := cc];
    }
  }
}
