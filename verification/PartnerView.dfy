/** The rules of `src/middleware/partner-view-rules.ts`, by which a request is let through under another account. */
module PartnerViewRules {
  import opened Text

  const READ_METHODS: set<string> := {"GET", "HEAD", "OPTIONS"}
  const FORBIDDEN_PREFIXES: seq<string> := ["/api/v1/auth", "/api/v1/storage"]
  const SELF_ONLY_PREFIXES: seq<string> := ["/api/v1/partner"]

  datatype Reason = Method | Path

  datatype Decision = Ignore | Refuse(reason: Reason) | Verify

  predicate StartsWith(url: string, prefix: string) {
    url == prefix || prefix + "/" <= url || prefix + "?" <= url
  }

  predicate StartsWithAny(url: string, prefixes: seq<string>) {
    exists i :: 0 <= i < |prefixes| && StartsWith(url, prefixes[i])
  }

  function DecidePartnerView(hasHeader: bool, verb: string, url: string): Decision {
    if !hasHeader then Ignore
    else if StartsWithAny(url, SELF_ONLY_PREFIXES) then Ignore
    else if Upper(verb) !in READ_METHODS then Refuse(Method)
    else if StartsWithAny(url, FORBIDDEN_PREFIXES) then Refuse(Path)
    else Verify
  }

  // ---------- what the rule means

  /** The path of a URL: what comes before the query string. */
  function PathOf(url: string): string {
    if url == "" || url[0] == '?' then "" else [url[0]] + PathOf(url[1..])
  }

  /** The path is the prefix, or lies below it: a path that merely begins with the same letters does not. */
  predicate LiesUnder(path: string, prefix: string) {
    path == prefix || prefix + "/" <= path
  }

  lemma PrefixStep(c: char, s: string, url: string)
    ensures [c] + s <= url <==> url != "" && url[0] == c && s <= url[1..]
    ensures [c] + s == url <==> url != "" && url[0] == c && s == url[1..]
  {
    if url != "" {
      assert url == [url[0]] + url[1..];
      assert ([c] + s)[1..] == s;
    }
  }

  /** Whether a text is or lies below a prefix, a letter at a time. */
  lemma LiesUnderStep(c: char, rest: string, text: string)
    ensures LiesUnder(text, [c] + rest) <==> text != "" && text[0] == c && LiesUnder(text[1..], rest)
  {
    assert [c] + rest + "/" == [c] + (rest + "/");
    PrefixStep(c, rest, text);
    PrefixStep(c, rest + "/", text);
  }

  lemma StartsWithStep(c: char, rest: string, url: string)
    ensures StartsWith(url, [c] + rest) <==> url != "" && url[0] == c && StartsWith(url[1..], rest)
  {
    assert [c] + rest + "/" == [c] + (rest + "/") && [c] + rest + "?" == [c] + (rest + "?");
    PrefixStep(c, rest, url);
    PrefixStep(c, rest + "/", url);
    PrefixStep(c, rest + "?", url);
  }

  /** The textual test on the raw URL is the test on its path, whatever the query string holds. */
  lemma {:induction false} StartsWithIsLiesUnder(url: string, prefix: string)
    requires '?' !in prefix
    ensures StartsWith(url, prefix) <==> LiesUnder(PathOf(url), prefix)
    decreases prefix
  {
    if prefix == "" {
      assert "" + "/" == "/" && "" + "?" == "?";
    } else {
      var c, rest := prefix[0], prefix[1..];
      assert prefix == [c] + rest;
      hide StartsWith, LiesUnder;
      StartsWithStep(c, rest, url);
      LiesUnderStep(c, rest, PathOf(url));
      if url != "" && url[0] == c {
        StartsWithIsLiesUnder(url[1..], rest);
        assert PathOf(url) == [c] + PathOf(url[1..]);
        assert PathOf(url)[1..] == PathOf(url[1..]);
      }
    }
  }

  lemma PrefixesAre(url: string)
    ensures StartsWithAny(url, SELF_ONLY_PREFIXES) <==> LiesUnder(PathOf(url), "/api/v1/partner")
    ensures StartsWithAny(url, FORBIDDEN_PREFIXES)
       <==> LiesUnder(PathOf(url), "/api/v1/auth") || LiesUnder(PathOf(url), "/api/v1/storage")
  {
    StartsWithIsLiesUnder(url, "/api/v1/partner");
    StartsWithIsLiesUnder(url, "/api/v1/auth");
    StartsWithIsLiesUnder(url, "/api/v1/storage");
    hide StartsWith, LiesUnder, PathOf;
    assert SELF_ONLY_PREFIXES[0] == "/api/v1/partner";
    assert FORBIDDEN_PREFIXES[0] == "/api/v1/auth" && FORBIDDEN_PREFIXES[1] == "/api/v1/storage";
  }

  /** A header is accepted exactly for a read on a path that is not the partner's own, authentication or storage. */
  lemma DecisionIff(hasHeader: bool, verb: string, url: string)
    ensures var d, path := DecidePartnerView(hasHeader, verb, url), PathOf(url);
            var self := LiesUnder(path, "/api/v1/partner");
            var forbidden := LiesUnder(path, "/api/v1/auth") || LiesUnder(path, "/api/v1/storage");
            var read := Upper(verb) in {"GET", "HEAD", "OPTIONS"};
            && (d == Ignore <==> !hasHeader || self)
            && (d == Verify <==> hasHeader && !self && read && !forbidden)
            && (d == Refuse(Method) <==> hasHeader && !self && !read)
            && (d == Refuse(Path) <==> hasHeader && !self && read && forbidden)
  {
    hide StartsWithAny, LiesUnder, PathOf, Upper;
    PrefixesAre(url);
  }
}

/** "View as vendor", `src/middleware/partner-view.ts`, over the partner tables. */
module PartnerView {
  import opened Common
  import opened Partners
  import opened PartnerViewRules
  import opened Text

  /** The `x-partner-view` header as Node delivers it. */
  datatype Header = Absent | One(value: string) | Many(values: seq<string>)

  datatype User = User(id: UserId, email: string, isVendor: bool, permissions: seq<string>)

  datatype ViewContext = ViewContext(actorUserId: UserId, vendorUserId: UserId)

  datatype ViewError = Forbidden(reason: Reason) | NotFound

  /** The vendor named by the header: its first value. */
  function VendorOf(header: Header): Option<UserId> {
    match header
    case Absent => None
    case One(v) => Some(v)
    case Many(vs) => if vs == [] then None else Some(vs[0])
  }

  /** An absent and an empty header are the same. */
  predicate HasHeader(header: Header) {
    VendorOf(header).Some? && VendorOf(header).value != ""
  }

  /** The profile entitles the actor to view the vendor now. */
  predicate Entitles(db: Db, p: PartnerId, actor: UserId, v: UserId) {
    p in db.profiles && db.profiles[p].userId == actor && db.profiles[p].status == Active && IsLinked(db.links, p, v)
  }

  ghost predicate CanView(db: Db, actor: UserId, v: UserId) {
    exists p :: Entitles(db, p, actor, v)
  }

  class Request {
    const verb: string
    const originalUrl: string
    const header: Header
    var user: Option<User>
    var partnerView: Option<ViewContext>

    constructor (verb: string, originalUrl: string, header: Header, user: Option<User>)
      ensures this.verb == verb && this.originalUrl == originalUrl && this.header == header
      ensures this.user == user && partnerView == None
    {
      this.verb, this.originalUrl, this.header := verb, originalUrl, header;
      this.user, partnerView := user, None;
    }

    /**
     Runs the request as the vendor named by the header, the first one if there are several, exactly for
     a read outside the partner's own, authentication and storage paths, by an account whose active
     profile has a live link to that vendor, if the vendor's account really is one. In every other case
     the header is ignored, refused or not found, and the user stays the actor.
     */
    method ApplyPartnerViewContext(db: Db, emailOf: UserId -> string) returns (result: Result<(), ViewError>)
      modifies this
      ensures old(user).None? || header == Absent || header == One("") || header == Many([])
              || (header.Many? && [""] <= header.values) ==>
                result == Success(()) && user == old(user) && partnerView == old(partnerView)
      ensures forall v :: old(user).Some? && v != "" && (header == One(v) || (header.Many? && [v] <= header.values)) ==>
                var actor, path := old(user).value.id, PathOf(originalUrl);
                var isRead := Upper(verb) in {"GET", "HEAD", "OPTIONS"};
                var isOwn := LiesUnder(path, "/api/v1/partner");
                var isForbidden := LiesUnder(path, "/api/v1/auth") || LiesUnder(path, "/api/v1/storage");
                var isLinked := exists p :: p in db.profiles && db.profiles[p].userId == actor
                                            && db.profiles[p].status == Active
                                            && (p, v) in db.links && db.links[(p, v)].isActive;
                if !isOwn && isRead && !isForbidden && isLinked && v in db.users && db.users[v] == VendorRole then
                  && result == Success(())
                  && user == Some(User(v, emailOf(v), true, []))
                  && partnerView == Some(ViewContext(actor, v))
                else
                  && user == old(user) && partnerView == old(partnerView)
                  && result == (if isOwn then Success(())
                                else if !isRead then Failure(Forbidden(Method))
                                else if isForbidden then Failure(Forbidden(Path))
                                else Failure(NotFound))
    {
      if user.None? {
        return Success(());
      }
      DecisionIff(HasHeader(header), verb, originalUrl);
      hide LiesUnder, PathOf, Upper, DecidePartnerView;
      var decision := DecidePartnerView(HasHeader(header), verb, originalUrl);
      match decision {
        case Ignore => return Success(());
        case Refuse(reason) => return Failure(Forbidden(reason));
        case Verify =>
      }
      var actor, v := user.value.id, VendorOf(header).value;
      if !(exists p :: p in db.profiles && Entitles(db, p, actor, v)) || v !in db.users || db.users[v] != VendorRole {
        return Failure(NotFound);
      }
      partnerView := Some(ViewContext(actor, v));
      user := Some(User(v, emailOf(v), true, []));
      return Success(());
    }
  }

  // ---------- who can view whom, over every run

  /** In every reachable state a vendor can be viewed by at most one account. */
  lemma ViewableByOne(users: map<UserId, Role>, ops: seq<Op>, a: UserId, b: UserId, v: UserId)
    requires CanView(Run(Start(users), ops), a, v) && CanView(Run(Start(users), ops), b, v)
    ensures a == b && a != v
  {
    ReachableStatesAreSound(users, ops);
    var db := Run(Start(users), ops);
    var p :| Entitles(db, p, a, v);
    var q :| Entitles(db, q, b, v);
    assert (p, v) in db.links;
  }

  /** Ending a link takes effect at once: nobody can view the vendor any more. */
  lemma UnassignStopsViewing(
    db: Db, p: PartnerId, v: UserId, reason: Option<string>, admin: UserId, now: int, actor: UserId)
    requires Inv(db) && Unassigned(db, p, v, reason, admin, now).Success?
    ensures !CanView(Unassigned(db, p, v, reason, admin, now).value, actor, v)
  {
    var db' := Unassigned(db, p, v, reason, admin, now).value;
    forall q ensures !IsLinked(db'.links, q, v) {
      if q != p && IsLinked(db'.links, q, v) {
        assert IsLinked(db.links, q, v);
      }
    }
  }

  /** Linking takes effect at once too: an active partner can view every vendor of an accepted batch. */
  lemma AssignStartsViewing(db: Db, p: PartnerId, vendors: seq<UserId>, input: AssignInput, v: UserId)
    requires Assigned(db, p, vendors, input).Success? && v in vendors && db.profiles[p].status == Active
    ensures CanView(Assigned(db, p, vendors, input).value, db.profiles[p].userId, v)
  {
    UpsertedAllAt(db.links, p, vendors, input);
    assert (p, v) in (set u | u in vendors :: (p, u));
    assert Entitles(Assigned(db, p, vendors, input).value, p, db.profiles[p].userId, v);
  }

  /** Making a suspended partner active again restores the view of exactly the vendors still linked. */
  lemma ReactivationRestoresViewing(db: Db, p: PartnerId, input: UpdateInput, v: UserId)
    requires Inv(db) && p in db.profiles && input.status == Some(Active)
    ensures CanView(Updated(db, p, input).value, db.profiles[p].userId, v) <==> IsLinked(db.links, p, v)
  {
    var db', actor := Updated(db, p, input).value, db.profiles[p].userId;
    if CanView(db', actor, v) {
      var q :| Entitles(db', q, actor, v);
      assert db.profiles[q].userId == db.profiles[p].userId;
    } else {
      assert !Entitles(db', p, actor, v);
    }
  }

  /** Suspending a partner takes effect at once: the account can view no vendor any more. */
  lemma SuspensionStopsViewing(db: Db, p: PartnerId, input: UpdateInput, v: UserId)
    requires Inv(db) && p in db.profiles && input.status == Some(Suspended)
    ensures !CanView(Updated(db, p, input).value, db.profiles[p].userId, v)
  {
  }

  /** The operation is accepted, and either links the vendor to the actor's profile or makes that profile active. */
  ghost predicate Restores(db: Db, op: Op, actor: UserId, v: UserId) {
    && Outcome(db, op).Success?
    && match op
       case Assign(p, vendors, _) => db.profiles[p].userId == actor && v in vendors
       case Update(p, changes) => db.profiles[p].userId == actor && changes.status == Some(Active)
       case _ => false
  }

  ghost predicate RestoredDuring(db: Db, ops: seq<Op>, actor: UserId, v: UserId)
    decreases ops
  {
    ops != [] && (Restores(db, ops[0], actor, v) || RestoredDuring(Apply(db, ops[0]), ops[1..], actor, v))
  }

  lemma StepRestoresOrNot(db: Db, op: Op, actor: UserId, v: UserId)
    requires Inv(db) && !CanView(db, actor, v) && !Restores(db, op, actor, v)
    ensures !CanView(Apply(db, op), actor, v)
  {
    var db' := Apply(db, op);
    if op.Assign? {
      UpsertedAllAt(db.links, op.partner, op.vendors, op.input);
    }
    forall p ensures !Entitles(db', p, actor, v) {
      assert !Entitles(db, p, actor, v);
    }
  }

  /**
   Once a vendor cannot be viewed by an account, it stays so in every run until an accepted operation
   links the vendor to that account's profile or makes that profile active again.
   */
  lemma {:induction false} NoViewUntilRestored(db: Db, ops: seq<Op>, actor: UserId, v: UserId)
    requires Inv(db) && !CanView(db, actor, v) && CanView(Run(db, ops), actor, v)
    ensures RestoredDuring(db, ops, actor, v)
    decreases ops
  {
    if ops != [] && !Restores(db, ops[0], actor, v) {
      StepRestoresOrNot(db, ops[0], actor, v);
      StepKeepsInv(db, ops[0]);
      NoViewUntilRestored(Apply(db, ops[0]), ops[1..], actor, v);
    }
  }
}
