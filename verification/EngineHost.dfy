/** Engines as the application runtime uses them: each listens on one endpoint with one token
    and one file allowlist (internal/engine/engine.go:78-223, 519-566). Every fallible step
    consults `fails`. Stopping an engine closes its database whatever error it reports, so its
    endpoint is free afterwards (engine.go:525-536). */
module EngineHost {
  import opened Sources

  datatype Endpoint = Endpoint(host: string, port: nat)

  /** The part of quackridge.Options the runtime edits. */
  datatype Options = Options(allowed: seq<string>, host: string, port: nat, token: string)

  function Address(options: Options): string {
    if options.host == "" then "127.0.0.1" else options.host
  }

  class Host {
    const fails: nat -> bool
    const tokens: nat -> string
    const loopback: string -> bool
    const preparable: Source -> bool  // adapter and credential are there, and validation passes
    var calls: nat
    var served: map<Endpoint, Engine>
    ghost var engines: set<Engine>
    ghost var clashes: nat  // attempts to listen on an endpoint that is already served

    constructor (fails: nat -> bool, tokens: nat -> string, loopback: string -> bool, preparable: Source -> bool)
      requires forall n :: tokens(n) != ""
      ensures Ok() && engines == {} && served == map[] && clashes == 0 && calls == 0
      ensures this.fails == fails && this.loopback == loopback && this.preparable == preparable
    {
      this.fails, this.tokens, this.loopback, this.preparable := fails, tokens, loopback, preparable;
      calls, served, engines, clashes := 0, map[], {}, 0;
    }

    /** No two engines serve the same endpoint, `served` is what the engines serve, and an
        engine that serves answers to its own token. */
    ghost predicate Ok()
      reads this, engines
    {
      OkBut({})
    }

    /** The same, except that the engines in `rotating` may serve a token they do not record. */
    ghost predicate OkBut(rotating: set<Engine>)
      reads this, engines
    {
      && (forall n :: tokens(n) != "")
      && (forall p :: p in served ==> served[p] in engines && served[p].serving && served[p].endpoint == p)
      && (forall e :: e in engines ==> e.host == this && e.Sound() && (e in rotating || e.Honest()))
      && (forall e :: e in engines && e.serving ==> e.endpoint in served && served[e.endpoint] == e)
    }

    ghost predicate Quiet() {
      forall n :: !fails(n)
    }

    /** None of the next `count` fallible steps from the n-th on fails. */
    ghost predicate FaultFree(n: nat, count: nat) {
      forall m :: n <= m < n + count ==> !fails(m)
    }

    method Fails() returns (f: bool)
      modifies this`calls
      ensures calls == old(calls) + 1
      ensures f == fails(old(calls)) && (old(Ok()) ==> Ok())
    {
      f := fails(calls);
      calls := calls + 1;
    }

    /** Listening on an endpoint that is served already. */
    method Clash()
      modifies this`clashes
      ensures clashes == old(clashes) + 1 && (old(Ok()) ==> Ok())
    {
      clashes := clashes + 1;
    }

    method FreePort(host: string) returns (port: nat)
      ensures port != 0 && Endpoint(host, port) !in served
    {
      port := 1;
      ghost var taken: set<Endpoint> := {};
      while Endpoint(host, port) in served
        invariant port != 0 && taken <= served.Keys
        invariant forall p :: p in taken ==> p.port < port
        decreases served.Keys - taken
      {
        assert Endpoint(host, port) in served.Keys - taken;
        taken := taken + {Endpoint(host, port)};
        port := port + 1;
      }
    }
  }

  class Engine {
    const host: Host
    var running: bool    // the database is open
    var serving: bool    // the endpoint answers
    var endpoint: Endpoint
    var token: string
    var servedToken: string  // the token the endpoint answers to
    var allowed: seq<string>
    var sources: set<Source>  // the attached sources
    var strays: set<Source>   // sources whose staged copy could not be detached again

    ghost predicate Sound()
      reads this
    {
      && (serving ==> running)
      && (!running ==> token == "" && sources == {} && strays == {})
      && (running ==> token != "")
    }

    /** The endpoint answers to the token the engine records. */
    ghost predicate Honest()
      reads this
    {
      serving ==> servedToken == token
    }

    constructor (host: Host)
      ensures this.host == host && !running && !serving && Sound() && Honest()
    {
      this.host := host;
      running, serving, endpoint, token, servedToken := false, false, Endpoint("", 0), "", "";
      allowed, sources, strays := [], {}, {};
    }

    method Start(options: Options) returns (ok: bool)
      requires host.Ok() && this in host.engines
      modifies this, host`calls, host`served, host`clashes
      ensures host.Ok()
      ensures ok ==> !old(running) && running && serving && allowed == options.allowed && sources == strays == {}
      ensures ok ==> endpoint.host == Address(options)
      ensures ok && options.port != 0 ==> endpoint.port == options.port
      ensures ok && options.token != "" ==> token == options.token
      ensures ok ==> endpoint.port != 0 && token != ""
      ensures !ok ==> running == old(running) && serving == old(serving) && endpoint == old(endpoint)
      ensures !ok ==> token == old(token) && servedToken == old(servedToken) && allowed == old(allowed)
      ensures !ok ==> sources == old(sources) && strays == old(strays)
      ensures host.clashes == old(host.clashes)
                + if !old(running) && !host.fails(old(host.calls)) && host.loopback(Address(options))
                     && options.port != 0 && Endpoint(Address(options), options.port) in old(host.served) then 1 else 0
      ensures host.served == if ok then old(host.served)[endpoint := this] else old(host.served)
      ensures ok ==> host.loopback(Address(options))
      ensures (!old(running) && host.loopback(Address(options))
               && (options.port == 0 || Endpoint(Address(options), options.port) !in old(host.served))) ==>
                && (ok <==> host.FaultFree(old(host.calls), 2))
                && host.calls == old(host.calls) + if host.fails(old(host.calls)) then 1 else 2
    {
      hide Host.OkBut, Host.Ok, Engine.Sound;
      HonestWithin();
      if running {
        return false;
      }
      var broken := host.Fails();
      var address := Address(options);
      if broken || !host.loopback(address) {
        return false;
      }
      var port := options.port;
      if port == 0 {
        port := host.FreePort(address);
      }
      if Endpoint(address, port) in host.served {
        host.Clash();
        return false;
      }
      broken := host.Fails();
      if broken {
        return false;
      }
      Publish(Endpoint(address, port),
              if options.token == "" then host.tokens(host.calls) else options.token, options.allowed);
      ok := true;
    }

    method Publish(at: Endpoint, token: string, allowed: seq<string>)
      requires host.Ok() && this in host.engines && !running && at !in host.served && token != ""
      modifies this, host`served
      ensures host.Ok() && running && serving && endpoint == at && this.token == token
      ensures this.allowed == allowed && sources == strays == {} && host.served == old(host.served)[at := this]
    {
      running, serving, endpoint, this.token, servedToken := true, true, at, token, token;
      this.allowed, sources, strays := allowed, {}, {};
      host.served := host.served[endpoint := this];
    }

    method SetSources(sources: set<Source>)
      requires host.Ok() && this in host.engines && running
      modifies this`sources
      ensures host.Ok() && this.sources == sources
    {
      this.sources := sources;
    }

    method AddStray(s: Source)
      requires host.Ok() && this in host.engines && running
      modifies this`strays
      ensures host.Ok() && strays == old(strays) + {s}
    {
      strays := strays + {s};
    }

    /** `CALL quack_stop(endpoint)`. */
    method Unserve()
      requires host.Ok() && this in host.engines
      modifies this`serving, host`served
      ensures host.Ok() && !serving
      ensures host.served == if old(serving) then old(host.served) - {endpoint} else old(host.served)
    {
      if serving {
        serving, host.served := false, host.served - {endpoint};
      }
    }

    /** The database is closed, and everything attached in it is gone. */
    method Close()
      requires host.Ok() && this in host.engines && !serving
      modifies this`running, this`token, this`sources, this`strays
      ensures host.Ok() && !running
    {
      running, token, sources, strays := false, "", {}, {};
    }

    /** Always leaves the engine stopped; the result says whether it stopped without an error. */
    method Stop() returns (ok: bool)
      requires host.Ok() && this in host.engines
      modifies this, host`calls, host`served
      ensures host.Ok() && !running
      ensures endpoint == old(endpoint) && allowed == old(allowed)
      ensures old(serving) ==> host.served == old(host.served) - {endpoint}
      ensures !old(serving) ==> host.served == old(host.served)
      ensures ok <==> !old(running) || !host.fails(old(host.calls))
      ensures host.calls == old(host.calls) + if old(running) then 1 else 0
    {
      if !running {
        return true;
      }
      hide Host.Ok, Host.OkBut, Engine.Sound;
      Unserve();
      Close();
      var broken := host.Fails();
      ok := !broken;
    }

    /** `CALL quack_serve(endpoint, token)` on an engine that is not serving; which token the
        engine records is another matter. */
    method Serve(with: string) returns (ok: bool)
      requires host.Ok() && this in host.engines && running && !serving
      modifies this`serving, this`servedToken, host`calls, host`served
      ensures host.OkBut({this}) && serving == ok
      ensures ok ==> servedToken == with
      ensures ok <==> !host.fails(old(host.calls)) && endpoint !in old(host.served)
      ensures host.calls == old(host.calls) + 1 && (!ok ==> host.served == old(host.served))
    {
      var broken := host.Fails();
      ok := !broken && endpoint !in host.served;
      if ok {
        serving, servedToken, host.served := true, with, host.served[endpoint := this];
      }
    }

    /** `r.token = token`, once the endpoint serves it. */
    method Record(served: string)
      requires host.OkBut({this}) && this in host.engines && serving && servedToken == served != ""
      modifies this`token
      ensures host.Ok() && token == served
    {
      token := served;
    }

    lemma HonestWithin()
      requires host.Ok() && this in host.engines
      ensures Honest() && forall n :: host.tokens(n) != ""
    {
    }

    lemma HonestAgain()
      requires host.OkBut({this}) && Honest()
      ensures host.Ok()
    {
    }

    /** A new token takes effect by serving the same endpoint again, and is recorded after that. If
        serving fails the previous token is served again, unless that fails too. Whatever happens,
        an endpoint that answers afterwards answers to the recorded token. */
    method RotateToken() returns (ok: bool)
      requires host.Ok() && this in host.engines
      modifies this`token, this`serving, this`servedToken, host`calls, host`served
      ensures host.Ok()
      ensures ok ==> old(running) && serving && servedToken == host.tokens(old(host.calls) + 1) != ""
      ensures !ok ==> token == old(token)
      ensures ok <==>
                && running && !host.fails(old(host.calls)) && !host.fails(old(host.calls) + 1)
                && !host.fails(old(host.calls) + 2) && (old(serving) || endpoint !in old(host.served))
      ensures !ok && running && !host.fails(old(host.calls)) && !host.fails(old(host.calls) + 1) ==>
                (serving <==> !host.fails(old(host.calls) + 3) && (old(serving) || endpoint !in old(host.served)))
    {
      hide Host.OkBut, Host.Ok, Engine.Sound;
      var broken := host.Fails();
      if broken || !running {
        return false;
      }
      var next := host.tokens(host.calls);
      broken := host.Fails();
      if broken {
        return false;
      }
      Unserve();
      ok := Serve(next);
      if ok {
        Record(next);
      } else {
        HonestAgain();
        var _ := Serve(token);
        HonestAgain();
      }
    }
  }
}
