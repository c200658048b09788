/**
 Requests on their way through redirects: which request each exchange puts on the wire, to
 which origin, and how a redirect makes the next one out of it.
 */
module RedirectChains {
  import opened Text
  import opened UrlParse
  import opened HttpRequests
  import opened RetryConfigs
  import opened RetryRuns
  import opened ClientExchanges

  // --------------------------------------------------------------------- one exchange

  /**
   The attempt went to the origin `key`. Over HTTP/1.1 it put nothing but this request on the
   wire, and all of it when it was answered; its reply is what was heard, within the limit.
   */
  ghost predicate Carried(key: string, out: Outgoing, limit: nat, a: Attempt) {
    !a.ConnectFailed? ==>
      && a.via.origin == key && (a.via.http2 || WiredAs(out, a.wire, a.Completed?))
      && (a.Completed? ==>
            (a.heard.Calls? <==> a.via.http2) && Says(a.heard, out.m, limit, a.reply, a.keepAlive))
  }

  ghost predicate AllCarried(key: string, out: Outgoing, limit: nat, run: seq<Attempt>) {
    forall i :: 0 <= i < |run| ==> Carried(key, out, limit, run[i])
  }

  lemma NoneCarried(key: string, out: Outgoing, limit: nat)
    ensures AllCarried(key, out, limit, [])
  {
  }

  lemma CarriedOn(key: string, out: Outgoing, limit: nat, run: seq<Attempt>, a: Attempt)
    requires AllCarried(key, out, limit, run) && Carried(key, out, limit, a)
    ensures AllCarried(key, out, limit, run + [a])
  {
  }

  // ------------------------------------------------------------------------ a request

  /** A request to submit: what its buffer holds, and the payload held outside of it, in memory or in a file. */
  datatype Pending = Pending(r: Request, outside: string, fromFile: bool, trailers: bool)

  predicate Proper(p: Pending) { p.r.bodyAt <= |p.r.tail| && p.r.url.target != "" }

  function BodyText(p: Pending): string
    requires Proper(p)
  {
    InlineBody(p.r) + p.outside
  }

  /** The request as it goes out. */
  function OutOf(p: Pending): Outgoing
    requires Proper(p)
  {
    Outgoing(p.r.m, HeadText(p.r), BodyText(p), p.fromFile, p.trailers)
  }

  function Sub(p: Pending): Submission
    requires Proper(p)
  {
    Submission(p.r.m, BodyText(p))
  }

  /** A redirect of this status at this Location turns `p` into `q`. */
  ghost predicate Follows(p: Pending, q: Pending, status: nat, location: string)
    requires Proper(p) && Proper(q)
  {
    && ResolvedUrl(p.r.url, location) == Some(q.r.url)
    && Sub(q) == Rewritten(Sub(p), status)
    && (BecomesGet(status, p.r.m) ==> !p.trailers)
    && (!BecomesGet(status, p.r.m) ==> q == p.(r := p.r.(url := q.r.url)))
    && (BodyText(p) == "" ==> HeaderLines(q) == HeaderLines(p))
  }

  /** The header lines after the Host line. */
  function HeaderLines(p: Pending): string
    requires Proper(p)
  {
    p.r.tail[..p.r.bodyAt]
  }

  /** What comes of a redirect: the next request, or none. */
  datatype Fate = Led(next: Pending) | Refused | Threw | Spoiled

  /** A request with trailers cannot lose its body. */
  predicate CannotTurn(p: Pending, status: nat) { BecomesGet(status, p.r.m) && p.trailers }

  /** What the fate of a redirect says about the request it met. */
  ghost predicate FateMeans(p: Pending, status: nat, location: string, fate: Fate)
    requires Proper(p)
  {
    match fate
    case Led(q) => Proper(q) && Follows(p, q, status, location)
    case Refused =>
      && !CannotTurn(p, status) && ResolvedUrl(p.r.url, location) == None
      && !RedirectThrows(p.r.url, location)
    case Threw => CannotTurn(p, status) || RedirectThrows(p.r.url, location)
    case Spoiled => !Followable(p.r, location)
  }

  lemma RoomToFollow(r: Request, location: string)
    requires r.url.target != "" && Followable(r, location)
    ensures BodyStart(r) + 9 < BODY_LIMIT
  {
  }

  lemma FollowableAsIs(r: Request, location: string)
    requires r.url.target != "" && Followable(r, location)
    ensures BodyStart(r) + |location| < BODY_LIMIT && Retargetable(r, location)
    ensures Followed(r, location).Some? ==> BodyStart(Followed(r, location).value) < BODY_LIMIT
  {
    hide BodyStart, ResolvedUrl, CleanHost, Resolve;
  }

  /** Where a Location leads depends on the URL alone. */
  lemma SameReading(r: Request, q: Request, location: string)
    requires r.url.target != "" && q.url == r.url
    ensures Followed(q, location) ==
            (match ResolvedUrl(r.url, location) case None => None case Some(u) => Some(q.(url := u)))
  {
  }

  lemma MethodShrinks(r: Request)
    ensures BodyStart(r.(m := GET)) <= BodyStart(r)
  {
    hide OriginKey, HostValue;
  }

  /** A request that lost its body and became a GET still has room to follow. */
  lemma StillFollowable(r: Request, q: Request, location: string)
    requires r.url.target != "" && Followable(r, location)
    requires q.url == r.url && q.m == GET && q.bodyAt <= r.bodyAt + 2
    ensures BodyStart(q) + |location| < BODY_LIMIT && Retargetable(q, location)
    ensures Followed(q, location).Some? ==> BodyStart(Followed(q, location).value) < BODY_LIMIT
  {
    hide OriginKey, HostValue, ResolvedUrl, Resolve, CleanHost, InitData;
    MethodShrinks(r);
    if Followed(q, location).Some? { MethodShrinks(Followed(r, location).value); }
  }

  /** A redirect that asks for a GET takes the body away. */
  method TurnIntoGet(req: HttpRequest, p: Pending) returns (q: Pending)
    requires Proper(p) && req.Holds(p.r) && BodyStart(p.r) + 9 < BODY_LIMIT
    modifies req
    ensures Proper(q) && req.Holds(q.r) && Sub(q) == Submission(GET, "") && !q.trailers && !q.fromFile
    ensures q.r.url == p.r.url && q.r.bodyAt <= p.r.bodyAt + 2
    ensures BodyText(p) == "" ==> HeaderLines(q) == HeaderLines(p)
  {
    hide OriginKey, HeadText, Built, WellFormed, Pack, HeadersStart, InitData;
    var r := p.r;
    if BodyText(p) != "" {
      var tail := req.DropBody(r);
      r := r.(tail := tail, bodyAt := |tail|);
    }
    req.SetMethod(GET, r);
    q := Pending(r.(m := GET), "", false, false);
  }

  /** Method and body rewritten, the new URL makes the next request of the chain. */
  lemma Arrives(p: Pending, q: Pending, status: nat, location: string)
    requires Proper(p) && Proper(q) && q.r.url == p.r.url && !CannotTurn(p, status)
    requires if BecomesGet(status, p.r.m) then Sub(q) == Submission(GET, "") else q == p
    requires BodyText(p) == "" ==> HeaderLines(q) == HeaderLines(p)
    requires Followed(q.r, location).Some? && WellFormed(Followed(q.r, location).value)
    ensures var q' := q.(r := Followed(q.r, location).value); Proper(q') && Follows(p, q', status, location)
  {
    hide OriginKey, BodyStart, ResolvedUrl, BecomesGet;
  }

  /** The redirect of one answer: method and body first, then the URL. */
  method FollowRedirect(req: HttpRequest, p: Pending, status: nat, location: string) returns (fate: Fate)
    requires Proper(p) && req.Holds(p.r)
    modifies req
    ensures FateMeans(p, status, location, fate) && (fate.Led? ==> Proper(fate.next) && req.Holds(fate.next.r))
    ensures fate == Spoiled ==> !CannotTurn(p, status)
  {
    hide OriginKey, HeadText, Built, WellFormed, Pack, HeadersStart, InitData, BodyStart, ResolvedUrl, RedirectThrows,
         Followed, Followable, BecomesGet, Retargetable;
    if CannotTurn(p, status) { return Threw; }
    if !Followable(p.r, location) { return Spoiled; }
    var q := p;
    if BecomesGet(status, p.r.m) {
      RoomToFollow(p.r, location);
      q := TurnIntoGet(req, p);
      StillFollowable(p.r, q.r, location);
    } else {
      FollowableAsIs(p.r, location);
    }
    var outcome := req.ResolveRedirect(location, q.r);
    SameReading(p.r, q.r, location);
    match outcome
    case Thrown => return Threw;
    case Rejected => return Refused;
    case Done =>
      FollowedWellFormed(q.r, location);
      Arrives(p, q, status, location);
      return Led(q.(r := Followed(q.r, location).value));
  }

  // -------------------------------------------------------------------------- a chain

  function Subs(ps: seq<Pending>): (chain: seq<Submission>)
    requires forall i :: 0 <= i < |ps| ==> Proper(ps[i])
    ensures |chain| == |ps|
  {
    seq(|ps|, i requires 0 <= i < |ps| => Sub(ps[i]))
  }

  /** The requests of a chain, the redirects between them, and the runs that carried them to their origins. */
  ghost predicate Tour(limit: nat, ps: seq<Pending>, statuses: seq<nat>, locations: seq<string>,
                       runs: seq<seq<Attempt>>) {
    && |statuses| == |locations| <= |runs| <= |ps| == |statuses| + 1
    && (forall i :: 0 <= i < |ps| ==> Proper(ps[i]))
    && (forall i :: 0 <= i < |statuses| ==> Follows(ps[i], ps[i + 1], statuses[i], locations[i]))
    && (forall i :: 0 <= i < |runs| ==> AllCarried(OriginKey(ps[i].r.url), OutOf(ps[i]), limit, runs[i]))
    && (forall i :: 0 <= i < |statuses| ==> EndsAt(runs[i], statuses[i], locations[i]))
  }

  /** The run ended with a reply of this status, pointing there. */
  predicate EndsAt(run: seq<Attempt>, status: nat, location: string) {
    && run != [] && run[|run| - 1].Completed?
    && run[|run| - 1].reply.status == status && run[|run| - 1].reply.location == location
  }

  lemma TourRuns(limit: nat, ps: seq<Pending>, statuses: seq<nat>, locations: seq<string>, runs: seq<seq<Attempt>>,
                 run: seq<Attempt>)
    requires Tour(limit, ps, statuses, locations, runs) && |runs| < |ps|
    requires AllCarried(OriginKey(ps[|runs|].r.url), OutOf(ps[|runs|]), limit, run)
    ensures Tour(limit, ps, statuses, locations, runs + [run])
  {
    hide Follows, AllCarried, OriginKey, OutOf, Proper, EndsAt;
  }

  lemma TourRedirects(limit: nat, ps: seq<Pending>, statuses: seq<nat>, locations: seq<string>, runs: seq<seq<Attempt>>,
                      q: Pending, status: nat, location: string)
    requires Tour(limit, ps, statuses, locations, runs) && Proper(q)
    requires Follows(ps[|statuses|], q, status, location)
    requires |runs| == |ps| && EndsAt(runs[|statuses|], status, location)
    ensures Tour(limit, ps + [q], statuses + [status], locations + [location], runs)
    ensures Subs(ps + [q]) == Subs(ps) + [Rewritten(Subs(ps)[|statuses|], status)]
  {
    hide AllCarried, OriginKey, OutOf, Proper, Sub, Rewritten, ResolvedUrl, EndsAt;
    var ps' := ps + [q];
    forall i | 0 <= i < |runs|
      ensures Proper(ps'[i]) && AllCarried(OriginKey(ps'[i].r.url), OutOf(ps'[i]), limit, runs[i]) {
      assert ps'[i] == ps[i];
    }
    assert Sub(q) == Rewritten(Sub(ps[|statuses|]), status);
  }

  /** A request on its way: the tour of its requests is a journey of submissions under the retry policy. */
  ghost predicate OnTheWay(c: RetryConfig, limit: nat, ps: seq<Pending>, statuses: seq<nat>, locations: seq<string>,
                           runs: seq<seq<Attempt>>) {
    Tour(limit, ps, statuses, locations, runs) && Journey(c, Subs(ps), statuses, runs)
  }

  lemma SetsOut(c: RetryConfig, limit: nat, p: Pending)
    requires Proper(p)
    ensures OnTheWay(c, limit, [p], [], [], []) && Joined([]) == []
  {
    hide Journey, Sub;
    JourneyStarts(c, Sub(p));
    assert Subs([p]) == [Sub(p)];
  }

  lemma Submitted(c: RetryConfig, limit: nat, ps: seq<Pending>, statuses: seq<nat>, locations: seq<string>,
                  runs: seq<seq<Attempt>>, run: seq<Attempt>)
    requires OnTheWay(c, limit, ps, statuses, locations, runs) && |runs| == |statuses|
    requires WholeRun(c, ps[|runs|].r.m, run) && AllHonest(run)
    requires AllCarried(OriginKey(ps[|runs|].r.url), OutOf(ps[|runs|]), limit, run)
    ensures OnTheWay(c, limit, ps, statuses, locations, runs + [run]) && Joined(runs + [run]) == Joined(runs) + run
  {
    hide Journey, WholeRun, AllHonest, AllCarried, OutOf, OriginKey, Follows, Joined;
    assert Subs(ps)[|runs|] == Sub(ps[|runs|]);
    JourneyRuns(c, Subs(ps), statuses, runs, run);
    TourRuns(limit, ps, statuses, locations, runs, run);
  }

  lemma Redirected(c: RetryConfig, limit: nat, ps: seq<Pending>, statuses: seq<nat>, locations: seq<string>,
                   runs: seq<seq<Attempt>>, q: Pending, status: nat, location: string)
    requires OnTheWay(c, limit, ps, statuses, locations, runs) && |runs| == |ps|
    requires EndsAt(runs[|statuses|], status, location) && IsRedirect(status)
    requires FateMeans(ps[|statuses|], status, location, Led(q))
    ensures OnTheWay(c, limit, ps + [q], statuses + [status], locations + [location], runs)
  {
    hide Journey, Follows, IsRedirect, OriginKey, AllCarried, OutOf;
    JourneyRedirects(c, Subs(ps), statuses, runs, status);
    TourRedirects(limit, ps, statuses, locations, runs, q, status, location);
  }

  /**
   An answered HTTP/1.1 attempt anywhere in a chain: the origin it went to and the bytes it put
   on the wire are together exactly the request's buffer and what it holds outside of it.
   */
  lemma WireIsBuffer(c: RetryConfig, limit: nat, ps: seq<Pending>, statuses: seq<nat>, locations: seq<string>,
                     runs: seq<seq<Attempt>>, i: nat, k: nat)
    requires OnTheWay(c, limit, ps, statuses, locations, runs) && i < |runs| && k < |runs[i]|
    requires runs[i][k].Completed? && !runs[i][k].via.http2 && !ps[i].trailers
    ensures runs[i][k].via.origin + runs[i][k].wire == Built(ps[i].r) + ps[i].outside
  {
    hide Journey, Follows, OriginKey, HeadText, Built, BodyStart, InlineBody, Says, EndsAt;
    var p, a := ps[i], runs[i][k];
    assert Proper(p) && Carried(OriginKey(p.r.url), OutOf(p), limit, a);
    BuiltParts(p.r);
    assert a.wire == HeadText(p.r) + (InlineBody(p.r) + p.outside);
  }

  /**
   A connection serves one origin only: whatever two attempts, of whatever requests, went over
   connections to the same origin, the two URLs have the same scheme, host and port.
   */
  lemma OneOriginPerConnection(limit: nat, p: Pending, q: Pending, a: Attempt, b: Attempt)
    requires Proper(p) && Carried(OriginKey(p.r.url), OutOf(p), limit, a) && !a.ConnectFailed?
    requires Proper(q) && Carried(OriginKey(q.r.url), OutOf(q), limit, b) && !b.ConnectFailed?
    requires a.via.origin == b.via.origin
    ensures p.r.url.isTls == q.r.url.isTls && p.r.url.host == q.r.url.host && p.r.url.port == q.r.url.port
  {
    hide OriginKey;
    OriginKeyInjective(p.r.url, q.r.url);
  }
}
