/** `AddPartner`: the checks a new partner passes before its row is
    inserted, including the uploaded image it refers to in the main CDN
    scope. */
module Partners {
  import opened Common
  import opened Accounts
  import AssetPath
  import Assets

  /** Largest image, in bytes, a partner may use. */
  const MaxImageSize: nat := 100_000_000

  datatype Link = Link(name: string, value: string)

  datatype Partner = Partner(
    id: string,
    name: string,
    imageType: string,
    short: string,
    links: seq<Link>,
    partnerType: string,
    userId: UserId)

  /** The tables the handler reads and writes. */
  datatype Db = Db(users: Users, partnerTypes: set<string>, partners: map<string, Partner>)

  datatype PartnerError =
    | NoPartnerCapability
    | LookupFailed
    | UnknownPartnerType
    | MainScopeMissing
    | ImageNotAFile
    | ImageTooLarge
    | ImageEmpty
    | ImageUnreadable
    | NoLinks
    | LinkNameEmpty
    | LinkUrlEmpty
    | LinkNotHttps
    | UnknownUser
    | PartnerExists

  datatype Reply = Added | Refused(error: PartnerError)

  function ReplyStatus(r: Reply): Status
  {
    match r
    case Added => NoContent
    case Refused(NoPartnerCapability) => Forbidden
    case Refused(LookupFailed) => InternalError
    case Refused(_) => BadRequest
  }

  datatype Step = Step(db: Db, reply: Reply)

  predicate LinkAcceptable(l: Link)
  {
    |l.name| > 0 && |l.value| > 0 && HasPrefix(l.value, "https://")
  }

  /** The first complaint about one link, in the order the handler checks. */
  function LinkError(l: Link): (e: Option<PartnerError>)
    ensures e.None? <==> LinkAcceptable(l)
    ensures e.Some? ==> e.value in {LinkNameEmpty, LinkUrlEmpty, LinkNotHttps}
  {
    if |l.name| == 0 then Some(LinkNameEmpty)
    else if |l.value| == 0 then Some(LinkUrlEmpty)
    else if !HasPrefix(l.value, "https://") then Some(LinkNotHttps)
    else None
  }

  /** The loop over the links: the complaint about the first bad link. */
  function FirstLinkError(links: seq<Link>): (e: Option<PartnerError>)
    ensures e.None? <==> forall i :: 0 <= i < |links| ==> LinkAcceptable(links[i])
    ensures e.Some? ==> exists i :: 0 <= i < |links| && LinkError(links[i]) == e
                                    && forall j :: 0 <= j < i ==> LinkAcceptable(links[j])
  {
    if |links| == 0 then None
    else if LinkError(links[0]).Some? then LinkError(links[0])
    else
      var e := FirstLinkError(links[1..]);
      assert forall i :: 0 < i < |links| ==> links[i] == links[1..][i - 1];
      if e.Some? then
        var i :| 0 <= i < |links[1..]| && LinkError(links[1..][i]) == e
                 && forall j :: 0 <= j < i ==> LinkAcceptable(links[1..][j]);
        assert LinkError(links[i + 1]) == e;
        e
      else e
  }

  /** Where the image is looked for: `{scope}/partners/{id}.{image_type}`. */
  function ImagePath(root: string, p: Partner): (path: string)
    ensures AssetPath.Components(path)
         == AssetPath.Components(root) + ["partners"] + AssetPath.Components(p.id + "." + p.imageType)
  {
    var file := p.id + "." + p.imageType;
    AssetPath.ComponentsOfJoin(root, "partners" + "/" + file);
    AssetPath.ComponentsOfJoin("partners", file);
    AssetPath.ComponentsOfPlain("partners");
    root + "/" + ("partners" + "/" + file)
  }

  /** The metadata checks on the image: a regular, non-empty file of at
      most `MaxImageSize` bytes. */
  function ImageError(fs: Assets.Fs, path: string): (e: Option<PartnerError>)
    ensures e.None? <==> path in fs && fs[path].File? && 0 < |fs[path].content| <= MaxImageSize
    ensures path !in fs ==> e == Some(ImageUnreadable)
  {
    if path !in fs then Some(ImageUnreadable)
    else
      match fs[path]
      case Dir => Some(ImageNotAFile)
      case File(content) =>
        if |content| > MaxImageSize then Some(ImageTooLarge)
        else if |content| == 0 then Some(ImageEmpty)
        else None
  }

  /** Everything `AddPartner` demands of a partner before inserting it. */
  predicate Admissible(db: Db, scopes: map<string, string>, mainScope: string, fs: Assets.Fs, p: Partner)
  {
    && p.partnerType in db.partnerTypes
    && mainScope in scopes
    && ImageError(fs, ImagePath(scopes[mainScope], p)).None?
    && |p.links| > 0
    && (forall i :: 0 <= i < |p.links| ==> LinkAcceptable(p.links[i]))
    && p.userId in db.users
    && p.id !in db.partners
  }

  /** `AddPartner`: `caps` is the caller's capability set (None when it
      cannot be computed), `scopes` maps CDN scope names to their roots and
      `fs` is the CDN's file system. */
  function AddPartner(db: Db, caps: Option<set<Capability>>, scopes: map<string, string>, mainScope: string,
                      fs: Assets.Fs, p: Partner): (s: Step)
    ensures s.reply == Added <==> caps.Some? && PartnerManagement in caps.value && Admissible(db, scopes, mainScope, fs, p)
    ensures s.reply == Added ==> s.db == db.(partners := db.partners[p.id := p])
    ensures s.reply != Added ==> s.db == db
    ensures caps.Some? && PartnerManagement !in caps.value ==> s.reply == Refused(NoPartnerCapability)
    // the checks run in a fixed order: the partner type before the image,
    // the image before the links, the links before the user and the id
    ensures caps.Some? && PartnerManagement in caps.value && p.partnerType !in db.partnerTypes
            ==> s.reply == Refused(UnknownPartnerType)
    ensures caps.Some? && PartnerManagement in caps.value && p.partnerType in db.partnerTypes
            && mainScope in scopes && ImageError(fs, ImagePath(scopes[mainScope], p)).Some?
            ==> s.reply == Refused(ImageError(fs, ImagePath(scopes[mainScope], p)).value)
    ensures s.reply in {Refused(LinkNameEmpty), Refused(LinkUrlEmpty), Refused(LinkNotHttps)} ==>
              mainScope in scopes && ImageError(fs, ImagePath(scopes[mainScope], p)).None?
              && exists i :: 0 <= i < |p.links| && !LinkAcceptable(p.links[i])
    ensures s.reply == Refused(PartnerExists) ==> p.userId in db.users && p.id in db.partners
  {
    match caps
    case None => Step(db, Refused(LookupFailed))
    case Some(c) =>
      if PartnerManagement !in c then Step(db, Refused(NoPartnerCapability))
      else if p.partnerType !in db.partnerTypes then Step(db, Refused(UnknownPartnerType))
      else if mainScope !in scopes then Step(db, Refused(MainScopeMissing))
      else
        var image := ImageError(fs, ImagePath(scopes[mainScope], p));
        if image.Some? then Step(db, Refused(image.value))
        else if |p.links| == 0 then Step(db, Refused(NoLinks))
        else
          var link := FirstLinkError(p.links);
          if link.Some? then Step(db, Refused(link.value))
          else if p.userId !in db.users then Step(db, Refused(UnknownUser))
          else if p.id in db.partners then Step(db, Refused(PartnerExists))
          else Step(db.(partners := db.partners[p.id := p]), Added)
  }

  /** Unlike asset names and paths, the partner id and image type are not
      validated, so the image lookup can climb out of the scope's
      `partners` directory. */
  lemma ImagePathNotConfined(root: string)
    requires ".." !in AssetPath.Components(root)
    ensures var p := Partner("../logo", "n", "png", "s", [], "t", "u");
            && ".." in AssetPath.Components(ImagePath(root, p))
            && !AssetPath.ValidateName(p.id)
  {
    var p := Partner("../logo", "n", "png", "s", [], "t", "u");
    assert p.id == "../" + "logo";
    ParentIdClimbs(root, p, "logo");
    assert p.id[0] == '.';
  }

  /** An id starting with `../` puts a `..` component right after
      `partners` in the image path. */
  lemma ParentIdClimbs(root: string, p: Partner, rest: string)
    requires p.id == "../" + rest
    ensures ".." in AssetPath.Components(ImagePath(root, p))
  {
    var tail := rest + "." + p.imageType;
    assert p.id + "." + p.imageType == ".." + "/" + tail;
    AssetPath.ComponentsOfJoin("..", tail);
    AssetPath.ComponentsOfPlain("..");
    var cs := AssetPath.Components(ImagePath(root, p));
    assert cs[|AssetPath.Components(root)| + 1] == "..";
  }

  /** A `/../` in the text is a `..` component of the path. */
  lemma ParentStepSurvives(a: string, b: string)
    ensures ".." in AssetPath.Components(a + "/../" + b)
  {
    assert a + "/../" + b == a + "/" + (".." + "/" + b);
    AssetPath.ComponentsOfJoin(a, ".." + "/" + b);
    AssetPath.ComponentsOfJoin("..", b);
    AssetPath.ComponentsOfPlain("..");
    assert AssetPath.Components(".." + "/" + b)[0] == "..";
  }
}
