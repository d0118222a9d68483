/** Events as the tool receives them, and the two-level switch that picks
    one line template per event (`GetType` and `summarize` in main.go). */
module Events {
  import opened Decimal

  datatype Option<T> = None | Some(value: T)

  /** The fields of one decoded record that the summariser reads. The same
      record type holds activity events and, when `kind` is empty, search
      results describing a repository. */
  datatype Event = Event(
    kind: string,        // Type
    actor: string,       // Actor.Login
    repo: string,        // Repo.Name, "owner/name"
    action: string,      // Payload.Action
    refType: string,     // Payload.Ref_Type
    refName: string,     // Payload.Ref
    issueNumber: int,    // Payload.Issue.Number
    target: string,      // Payload.Target.Login
    releaseTag: string,  // Payload.Release.Tag_Name
    fullName: string,    // Full_Name
    watchers: int)       // Watchers_Count

  /** Kinds that are dropped without a line; consulted only when the kind
      matches no case of the switch. */
  const SkipEvents: seq<string> := ["GistEvent", "MemberEvent"]

  /** The case labels of the outer switch. */
  const SwitchKinds: set<string> := {
    "Project", "WatchEvent", "FollowEvent", "IssuesEvent", "IssueCommentEvent",
    "PushEvent", "ForkEvent", "CreateEvent", "PullRequestReviewCommentEvent",
    "PullRequestEvent", "DeleteEvent", "ReleaseEvent"}

  /** The kinds whose case switches again on a payload field. */
  const NestedKinds: set<string> := {
    "IssuesEvent", "CreateEvent", "PullRequestEvent", "DeleteEvent", "ReleaseEvent"}

  /** A record without a type is a repository from a search result. */
  function GetType(e: Event): (r: string)
    ensures r != ""
    ensures e.kind == "" ==> r == "Project"
    ensures e.kind != "" ==> r == e.kind
  {
    if e.kind == "" then "Project" else e.kind
  }

  /** One line template per branch of the switch. */
  datatype Template =
    | ProjectLine | Star | Follow
    | IssueCreated | IssueOpened | IssueClosed | IssueComment
    | Push | Fork | Tag | CreateRepo | Branch
    | ReviewComment | PullClosed | PullOpened
    | DeleteBranch | Release
    | Fallback

  /** The branch the switch takes: a case with its template, or the
      `default` branch, which first consults the skip set. */
  datatype Branch = Case(template: Template) | Default

  /** The two-level switch of `summarize`. */
  function Classify(e: Event): (b: Branch)
    ensures b == Default <==> GetType(e) !in SwitchKinds
    ensures b == Case(Fallback) ==> GetType(e) in NestedKinds
  {
    match GetType(e)
    case "Project" => Case(ProjectLine)
    case "WatchEvent" => Case(Star)
    case "FollowEvent" => Case(Follow)
    case "IssuesEvent" =>
      (match e.action
       case "created" => Case(IssueCreated)
       case "opened" => Case(IssueOpened)
       case "closed" => Case(IssueClosed)
       case _ => Case(Fallback))
    case "IssueCommentEvent" => Case(IssueComment)
    case "PushEvent" => Case(Push)
    case "ForkEvent" => Case(Fork)
    case "CreateEvent" =>
      (match e.refType
       case "tag" => Case(Tag)
       case "repository" => Case(CreateRepo)
       case "branch" => Case(Branch)
       case _ => Case(Fallback))
    case "PullRequestReviewCommentEvent" => Case(ReviewComment)
    case "PullRequestEvent" =>
      (match e.action
       case "closed" => Case(PullClosed)
       case "opened" => Case(PullOpened)
       case _ => Case(Fallback))
    case "DeleteEvent" =>
      (match e.refType
       case "branch" => Case(DeleteBranch)
       case _ => Case(Fallback))
    case "ReleaseEvent" =>
      (match e.action
       case "published" => Case(Release)
       case _ => Case(Fallback))
    case _ => Default
  }

  /** The text of a template filled with the event's fields: the
      `fmt.Sprintf` call of each branch written out. The fall-back line
      shows the raw `kind`, as the source does. */
  function Render(t: Template, e: Event): string
  {
    match t
    case ProjectLine => e.fullName + " " + Itoa(e.watchers)
    case Star => e.actor + " star " + e.repo
    case Follow => e.actor + " follow " + e.target
    case IssueCreated => e.actor + " comment issue " + Itoa(e.issueNumber) + " " + e.repo
    case IssueOpened => e.actor + " made issue " + Itoa(e.issueNumber) + " " + e.repo
    case IssueClosed => e.actor + " close issue " + Itoa(e.issueNumber) + " " + e.repo
    case IssueComment => e.actor + " comment issue " + e.repo
    case Push => e.actor + " push to " + e.repo
    case Fork => e.actor + " fork " + e.repo
    case Tag => e.actor + " tag " + e.refName + " " + e.repo
    case CreateRepo => e.actor + " create " + e.repo
    case Branch => e.actor + " branch " + e.repo
    case ReviewComment => e.actor + " comment req " + e.repo
    case PullClosed => e.actor + " close pull " + e.repo
    case PullOpened => e.actor + " create pull " + e.repo
    case DeleteBranch => e.actor + " del branch " + e.refName + " " + e.repo
    case Release => e.actor + " published " + e.releaseTag + " " + e.repo
    case Fallback => "-> " + e.kind + " " + e.actor + " " + e.repo
  }

  /** `s` ends with `t`. */
  predicate EndsWith(s: string, t: string) {
    |t| <= |s| && s[|s| - |t|..] == t
  }

  /** Where the fields sit in the lines: every line but the project's and
      the fall-back starts with the actor and a space, and every line but
      the project's and the follow ends with a space and the repository. */
  lemma RenderFrame(t: Template, e: Event)
    ensures t.ProjectLine? ==> e.fullName + " " <= Render(t, e) && EndsWith(Render(t, e), " " + Itoa(e.watchers))
    ensures t.Follow? ==> EndsWith(Render(t, e), " " + e.target)
    ensures t.Fallback? ==> "-> " + e.kind + " " + e.actor + " " <= Render(t, e)
    ensures !t.ProjectLine? && !t.Fallback? ==> e.actor + " " <= Render(t, e)
    ensures !t.ProjectLine? && !t.Follow? ==> EndsWith(Render(t, e), " " + e.repo)
  {
    var a := e.actor;
    var n := Itoa(e.issueNumber);
    match t {
      case ProjectLine => Framed(e.fullName, " ", Itoa(e.watchers));
      case Star => Framed(a, " star ", e.repo);
      case Follow => Framed(a, " follow ", e.target);
      case IssueCreated => Framed2(a, " comment issue ", n, e.repo);
      case IssueOpened => Framed2(a, " made issue ", n, e.repo);
      case IssueClosed => Framed2(a, " close issue ", n, e.repo);
      case IssueComment => Framed(a, " comment issue ", e.repo);
      case Push => Framed(a, " push to ", e.repo);
      case Fork => Framed(a, " fork ", e.repo);
      case Tag => Framed2(a, " tag ", e.refName, e.repo);
      case CreateRepo => Framed(a, " create ", e.repo);
      case Branch => Framed(a, " branch ", e.repo);
      case ReviewComment => Framed(a, " comment req ", e.repo);
      case PullClosed => Framed(a, " close pull ", e.repo);
      case PullOpened => Framed(a, " create pull ", e.repo);
      case DeleteBranch => Framed2(a, " del branch ", e.refName, e.repo);
      case Release => Framed2(a, " published ", e.releaseTag, e.repo);
      case Fallback =>
        Framed2("->", " ", e.kind, a);
        Framed("-> " + e.kind + " " + a, " ", e.repo);
    }
  }

  /** `a + word + b`, with `word` between spaces, starts with `a` and a
      space and ends with a space and `b`. */
  lemma Framed(a: string, word: string, b: string)
    requires |word| > 0 && word[0] == ' ' && word[|word| - 1] == ' '
    ensures a + " " <= a + word + b
    ensures EndsWith(a + word + b, " " + b)
  {
    var x := a + word + b;
    assert x[..|a| + 1] == a + " ";
    assert x[|x| - |b| - 1..] == " " + b;
  }

  /** The same for `a + word + f + " " + b`, reading `a + word + f + " "`
      as the lead. */
  lemma Framed2(a: string, word: string, f: string, b: string)
    requires |word| > 0 && word[0] == ' ' && word[|word| - 1] == ' '
    ensures a + " " <= a + word + f + " " + b
    ensures a + word + f + " " <= a + word + f + " " + b
    ensures EndsWith(a + word + f + " " + b, " " + b)
  {
    var x := a + word + f + " " + b;
    assert x[..|a| + 1] == a + " ";
    assert x[|x| - |b| - 1..] == " " + b;
  }

  /** The raw line `summarize` hands to `format`, or None when the event
      is one of the skipped kinds. */
  function Summary(e: Event): (r: Option<string>)
    ensures r == None <==> e.kind in SkipEvents
    ensures e.kind in SkipEvents ==> Classify(e) == Default
  {
    match Classify(e)
    case Case(t) => Some(Render(t, e))
    case Default => if e.kind in SkipEvents then None else Some(Render(Fallback, e))
  }

  // ---------------------------------------------------------------------
  // The switch as a table

  /** Which payload field a table row tests, if any. */
  datatype Key = Whole | ActionIs | RefTypeIs

  datatype Rule = Rule(kind: string, on: Key, value: string, template: Template)

  /** One row per named case of the switch, in source order. */
  const Rules: seq<Rule> := [
    Rule("Project", Whole, "", ProjectLine),
    Rule("WatchEvent", Whole, "", Star),
    Rule("FollowEvent", Whole, "", Follow),
    Rule("IssuesEvent", ActionIs, "created", IssueCreated),
    Rule("IssuesEvent", ActionIs, "opened", IssueOpened),
    Rule("IssuesEvent", ActionIs, "closed", IssueClosed),
    Rule("IssueCommentEvent", Whole, "", IssueComment),
    Rule("PushEvent", Whole, "", Push),
    Rule("ForkEvent", Whole, "", Fork),
    Rule("CreateEvent", RefTypeIs, "tag", Tag),
    Rule("CreateEvent", RefTypeIs, "repository", CreateRepo),
    Rule("CreateEvent", RefTypeIs, "branch", Branch),
    Rule("PullRequestReviewCommentEvent", Whole, "", ReviewComment),
    Rule("PullRequestEvent", ActionIs, "closed", PullClosed),
    Rule("PullRequestEvent", ActionIs, "opened", PullOpened),
    Rule("DeleteEvent", RefTypeIs, "branch", DeleteBranch),
    Rule("ReleaseEvent", ActionIs, "published", Release)
  ]

  predicate Matches(r: Rule, e: Event) {
    && GetType(e) == r.kind
    && match r.on
       case Whole => true
       case ActionIs => e.action == r.value
       case RefTypeIs => e.refType == r.value
  }

  predicate NoRuleMatches(e: Event) {
    forall i :: 0 <= i < |Rules| ==> !Matches(Rules[i], e)
  }

  /** A matching row decides the branch. */
  lemma ClassifyByRule(e: Event, i: int)
    requires 0 <= i < |Rules| && Matches(Rules[i], e)
    ensures Classify(e) == Case(Rules[i].template)
  {
  }

  /** Without a matching row, a kind of the switch falls back to the
      generic line and any other kind reaches the `default` branch. */
  lemma ClassifyWithoutRule(e: Event)
    requires NoRuleMatches(e)
    ensures Classify(e) == if GetType(e) in SwitchKinds then Case(Fallback) else Default
  {
    assert !Matches(Rules[3], e) && !Matches(Rules[4], e) && !Matches(Rules[5], e);
    assert !Matches(Rules[9], e) && !Matches(Rules[10], e) && !Matches(Rules[11], e);
    assert !Matches(Rules[13], e) && !Matches(Rules[14], e);
    assert !Matches(Rules[15], e) && !Matches(Rules[16], e);
    assert !Matches(Rules[0], e) && !Matches(Rules[1], e) && !Matches(Rules[2], e);
    assert !Matches(Rules[6], e) && !Matches(Rules[7], e) && !Matches(Rules[8], e);
    assert !Matches(Rules[12], e);
  }

  /** No event matches two rows: each event has exactly one template. */
  lemma RulesExclusive(e: Event, i: int, j: int)
    requires 0 <= i < |Rules| && 0 <= j < |Rules|
    requires Matches(Rules[i], e) && Matches(Rules[j], e)
    ensures i == j
  {
  }

  /** An event matching a row is written with that row's template. */
  lemma SummaryByRule(e: Event, i: int)
    requires 0 <= i < |Rules| && Matches(Rules[i], e)
    ensures Summary(e) == Some(Render(Rules[i].template, e))
  {
    ClassifyByRule(e, i);
  }

  /** An event matching no row, unless of a skipped kind, gets the
      generic line naming its raw type. */
  lemma FallbackLine(e: Event)
    requires NoRuleMatches(e) && e.kind !in SkipEvents
    ensures Summary(e) == Some("-> " + e.kind + " " + e.actor + " " + e.repo)
  {
    ClassifyWithoutRule(e);
  }
}
