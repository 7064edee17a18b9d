/**
 The objects of remote.go as one caller sees them, without interleaving: the
 session registry, and the device request pipeline with its deferred releases.
 The modules Registry and Admission treat the same operations under concurrency.
 */
module RemoteProxy {
  import opened Wrappers
  import opened Serials
  import opened RevokedFile
  import opened RevocationList
  import opened PerCertLimiter
  import opened PathGuard
  import opened Admission

  const OU_DEVICE := "opencode-proxy-device"

  datatype Certificate = Certificate(serialNumber: int, units: set<string>)

  /** tlsconf.go's serialOf. */
  function SerialOf(cert: Certificate): string {
    HexText(cert.serialNumber)
  }

  /** What the disk shows to one IsRevoked call. */
  datatype Look = Look(stat: Option<Stamp>, contents: Contents)

  class Session {
    var closed: bool

    constructor ()
      ensures !closed
    {
      closed := false;
    }

    method Close()
      modifies this
      ensures closed
    {
      closed := true;
    }
  }

  class SessionRegistry {
    var sess: Session?
    var cert: Option<Certificate>

    constructor ()
      ensures sess == null && cert == None
    {
      sess, cert := null, None;
    }

    /** There is a session to open streams on. */
    predicate Live()
      reads this, sess
    {
      sess != null && !sess.closed
    }

    method Set(s: Session, c: Option<Certificate>) returns (replacedLive: bool)
      modifies this, sess
      ensures sess == s && cert == c
      ensures old(sess) != null ==> old(sess).closed
      ensures s != old(sess) ==> s.closed == old(s.closed)
      ensures replacedLive <==> old(sess) != null && !old(sess.closed)
    {
      var previous := sess;
      sess, cert := s, c;
      replacedLive := false;
      if previous != null {
        replacedLive := !previous.closed;
        previous.Close();
      }
    }

    method Get() returns (current: Session?)
      ensures current != null <==> Live()
      ensures current != null ==> current == sess && !current.closed
    {
      if sess == null || sess.closed {
        return null;
      }
      return sess;
    }

    method Clear(s: Session)
      modifies this
      ensures sess == if old(sess) == s then null else old(sess)
      ensures cert == if old(sess) == s then None else old(cert)
    {
      if sess == s {
        sess, cert := null, None;
      }
    }

    /** There is a live session whose certificate a revocation check can look at. */
    predicate Checkable()
      reads this, sess
    {
      Live() && cert.Some?
    }

    method CloseCurrentIfRevoked(revocation: List?, look: Look) returns (done: bool)
      modifies revocation, sess
      ensures done <==>
        && revocation != null && old(Checkable())
        && SerialOf(cert.value) in Refreshed(old(revocation.View()), look.stat, look.contents).serials
      ensures sess != null ==> (sess.closed <==> old(sess.closed) || done)
      ensures revocation != null ==>
        revocation.View() == if old(Checkable()) then Refreshed(old(revocation.View()), look.stat, look.contents)
                             else old(revocation.View())
    {
      if revocation == null {
        return false;
      }
      if sess == null || cert.None? || sess.closed {
        return false;
      }
      var bad := revocation.IsRevoked(SerialOf(cert.value), look.stat, look.contents);
      if bad {
        sess.Close();
        return true;
      }
      return false;
    }
  }

  /** The device's own check comes first, the tunnel's finds the cache it left. */
  function RefreshedTwice(cache: Cache, device: Look, tunnel: Look): Cache {
    Refreshed(Refreshed(cache, device.stat, device.contents), tunnel.stat, tunnel.contents)
  }

  class Proxy {
    const registry: SessionRegistry
    const revocation: List?
    const limiter: Limiter
    const allowedPathPrefixes: seq<string>
    const maxConcurrentStreams: nat
    var inFlight: nat

    constructor (
      registry: SessionRegistry, revocation: List?, limiter: Limiter, prefixes: seq<string>, streams: nat)
      ensures this.registry == registry && this.revocation == revocation && this.limiter == limiter
      ensures allowedPathPrefixes == prefixes && maxConcurrentStreams == streams && inFlight == 0
    {
      this.registry, this.revocation, this.limiter := registry, revocation, limiter;
      allowedPathPrefixes, maxConcurrentStreams, inFlight := prefixes, streams, 0;
    }

    /** The status after the guards, with the budgets and the tunnel as the request finds them. */
    function Verdict(guards: Guards, serial: Serial, streamOpens: bool): int
      reads this, limiter, registry, registry.sess
    {
      match Checklist(guards)
      case Some(status) => status
      case None =>
        if limiter.cap > 0 && Held(limiter.inUse, serial) >= limiter.cap then UNAVAILABLE
        else if inFlight >= maxConcurrentStreams then UNAVAILABLE
        else if !registry.Live() || !streamOpens then UNAVAILABLE
        else SERVED
    }

    /**
     One device request from guard checklist to deferred releases; `guards` says how
     the guards came out (those behind the first refusal are not evaluated). Every
     exit leaves both budgets as it found them.
     */
    method DeviceRequest(peer: Option<Certificate>, path: string, device: Look, tunnel: Look, streamOpens: bool)
      returns (status: int, ghost guards: Guards)
      requires limiter.Valid()
      modifies this, limiter, revocation, registry.sess
      ensures limiter.Valid() && limiter.inUse == old(limiter.inUse) && inFlight == old(inFlight)
      ensures guards.deviceRole <==> peer.Some? && OU_DEVICE in peer.value.units
      ensures guards.certRevoked <==>
        && guards.deviceRole && revocation != null
        && SerialOf(peer.value) in Refreshed(old(revocation.View()), device.stat, device.contents).serials
      ensures guards.tunnelRevoked <==>
        && guards.deviceRole && !guards.certRevoked && revocation != null && old(registry.Checkable())
        && SerialOf(registry.cert.value) in RefreshedTwice(old(revocation.View()), device, tunnel).serials
      ensures guards.normalized <==> Normalized(path)
      ensures guards.allowed <==> Allowed(allowedPathPrefixes, path)
      ensures registry.sess != null ==> (registry.sess.closed <==> old(registry.sess.closed) || guards.tunnelRevoked)
      ensures revocation != null ==>
        revocation.View() ==
          if !guards.deviceRole then old(revocation.View())
          else if guards.certRevoked || !old(registry.Checkable())
               then Refreshed(old(revocation.View()), device.stat, device.contents)
          else RefreshedTwice(old(revocation.View()), device, tunnel)
      ensures status == old(Verdict(guards, if peer.Some? then SerialOf(peer.value) else "", streamOpens))
      ensures status == 200 ==>
        guards.deviceRole && !guards.certRevoked && !guards.tunnelRevoked && guards.normalized && guards.allowed
      ensures !guards.deviceRole || guards.certRevoked ==> status == 403
      ensures guards.deviceRole && !guards.certRevoked && guards.tunnelRevoked ==> status == 503
      ensures guards.deviceRole && !guards.certRevoked && !guards.tunnelRevoked ==>
        && (!guards.normalized ==> status == 400)
        && (guards.normalized && !guards.allowed ==> status == 403)
        && (guards.normalized && guards.allowed ==>
              status == if && (limiter.cap <= 0 || Held(old(limiter.inUse), SerialOf(peer.value)) < limiter.cap)
                           && old(inFlight) < maxConcurrentStreams
                           && old(registry.Live()) && streamOpens
                        then 200 else 503)
    {
      guards := Guards(peer.Some? && OU_DEVICE in peer.value.units, false, false,
                       Normalized(path), Allowed(allowedPathPrefixes, path));
      if peer.None? || OU_DEVICE !in peer.value.units {
        return FORBIDDEN, guards;
      }
      var serial := SerialOf(peer.value);
      if revocation != null {
        var revoked := revocation.IsRevoked(serial, device.stat, device.contents);
        guards := guards.(certRevoked := revoked);
        if revoked {
          return FORBIDDEN, guards;
        }
      }
      var closed := registry.CloseCurrentIfRevoked(revocation, tunnel);
      guards := guards.(tunnelRevoked := closed);
      if closed {
        return UNAVAILABLE, guards;
      }
      var normalized := PathIsNormalized(path);
      if !normalized {
        return BAD_REQUEST, guards;
      }
      var allowed := PathAllowed(allowedPathPrefixes, path);
      if !allowed {
        return FORBIDDEN, guards;
      }
      status := Forward(serial, streamOpens);
    }

    /**
     The two budgets around the proxied request, given back in reverse order. The
     request is served if there is a live tunnel and a stream opens on it.
     */
    method Forward(serial: Serial, streamOpens: bool) returns (status: int)
      requires limiter.Valid()
      modifies this, limiter
      ensures limiter.Valid() && limiter.inUse == old(limiter.inUse) && inFlight == old(inFlight)
      ensures status == SERVED <==>
        && (limiter.cap <= 0 || Held(old(limiter.inUse), serial) < limiter.cap)
        && old(inFlight) < maxConcurrentStreams
        && registry.Live() && streamOpens
      ensures status != SERVED ==> status == UNAVAILABLE
    {
      var acquired := limiter.Acquire(serial);
      if !acquired {
        return UNAVAILABLE;
      }
      if limiter.cap > 0 {
        ReleaseUndoesAcquire(old(limiter.inUse), serial, []);
      }
      if inFlight < maxConcurrentStreams {
        inFlight := inFlight + 1;
        var sess := registry.Get();
        status := if sess != null && streamOpens then SERVED else UNAVAILABLE;
        inFlight := inFlight - 1;
      } else {
        status := UNAVAILABLE;
      }
      limiter.Release(serial);
    }
  }
}
