/** Cluster definitions as a system of equations: each section's value is what its text means
    when the sections it refers to have their values (_expand_cluster and rangefunc_cluster in
    yamlfile.c, do_range_expand in range.c). */
module ClusterSemantics {
  import opened Text
  import opened Grammar
  import opened Semantics
  import opened ClusterIndex

  /** A value for each section of each cluster. */
  type Sections = (string, string) -> set<string>

  type Rank = (string, string) -> nat

  /** What a request finds outside itself: the clusters (_all_clusters; none for an unreadable
      directory), the text of a section (none where _expand_cluster returns an empty range without
      reading one), the parser (none for a syntax error), the functions of other modules, and the
      matches of user regular expressions. */
  datatype Defs = Defs(
    clusters: seq<string>,
    text: (string, string) -> Option<string>,
    parse: string -> Option<Deriv>,
    plugins: (string, seq<RangeVal>) -> RangeVal,
    matches: (string, string) -> bool)

  /** The cluster and section that a name refers to. */
  function SplitName(h: string): (string, string) {
    var n := IndexOf(h, ':');
    if n < |h| then (h[..n], h[n + 1..]) else (h, "CLUSTER")
  }

  function ValueOf(value: Sections, h: string): set<string> {
    value(SplitName(h).0, SplitName(h).1)
  }

  function ClusterUnion(value: Sections, names: set<string>): set<string> {
    set h, x | h in names && x in ValueOf(value, h) :: x
  }

  function GroupUnion(value: Sections, names: set<string>): set<string> {
    set h, x | h in names && x in value("GROUPS", h) :: x
  }

  function ByCluster(value: Sections): Expansions {
    c => value(c, "CLUSTER")
  }

  function BySection(value: Sections, c: string): Expansions {
    s => value(c, s)
  }

  /** The sections of c that meet the wanted names, among those that KEYS lists. */
  function SectionsMeeting(value: Sections, c: string, wanted: set<string>): set<string> {
    Meeting(value(c, "KEYS"), BySection(value, c), wanted)
  }

  function Holding(clusters: seq<string>, value: Sections, section: string, x: string): set<string> {
    set c | c in clusters && x in value(c, section)
  }

  predicate One(v: RangeVal) {
    |v.names| == 1
  }

  /** mem and has take the first name of an argument that stands for one name; which name of
      several comes first is up to the hash function. */
  predicate TakesFirst(name: string, args: seq<RangeVal>) {
    || (name == "mem" && (|args| == 2 ==> One(args[0])))
    || (name == "has" && (|args| == 2 ==> One(args[0]) && One(args[1])))
  }

  /** What a function returns when the sections have these values; the wrong number of arguments
      gives the empty range. */
  function CallFunction(defs: Defs, value: Sections, name: string, args: seq<RangeVal>): RangeVal {
    if name == "group" && args != [] then RangeVal(GroupUnion(value, Hostnames(args[0])), false)
    else if name == "allclusters" then RangeVal(Elements(defs.clusters), false)
    else if name in ONE_ARGUMENT then
      RangeVal(if |args| == 1 then CallOnNames(defs, value, name, Hostnames(args[0])) else {}, false)
    else if TakesFirst(name, args) then
      RangeVal(if |args| == 2 then CallOnPair(defs, value, name, Hostnames(args[0]), Hostnames(args[1])) else {}, false)
    else defs.plugins(name, args)
  }

  const ONE_ARGUMENT := ["cluster", "clusters", "get_cluster", "get_groups"]

  function CallOnNames(defs: Defs, value: Sections, name: string, names: set<string>): set<string> {
    if name == "cluster" then ClusterUnion(value, names)
    else if name == "get_groups" then SectionsMeeting(value, "GROUPS", names)
    else if name == "clusters" then Meeting(Elements(defs.clusters), ByCluster(value), names)
    else FirstHolders(defs.clusters, ByCluster(value), names)
  }

  function CallOnPair(defs: Defs, value: Sections, name: string, first: set<string>, second: set<string>): set<string> {
    if name == "mem" then set c, s | c in first && s in SectionsMeeting(value, c, second) :: s
    else set t, x, c | t in first && x in second && c in Holding(defs.clusters, value, t, x) :: c
  }

  function EnvOf(defs: Defs, value: Sections): Env {
    Env((name, args) => CallFunction(defs, value, name, args), defs.matches)
  }

  /** The expression a section stands for. */
  function SectionExpr(defs: Defs, c: string, s: string): Option<Expr> {
    match defs.text(c, s)
    case None => None
    case Some(text) => match defs.parse(text) case None => None case Some(d) => Some(Meaning(d))
  }

  function SectionValue(defs: Defs, value: Sections, c: string, s: string): set<string> {
    match SectionExpr(defs, c, s)
    case None => {}
    case Some(e) => Eval(EnvOf(defs, value), e).names
  }

  /** The equations of the sections of rank below k hold. */
  ghost predicate SolvesBelow(defs: Defs, rank: Rank, k: nat, value: Sections) {
    forall c, s :: rank(c, s) < k ==> value(c, s) == SectionValue(defs, value, c, s)
  }

  // What the functions are called for.

  lemma ClustersCall(defs: Defs, value: Sections, args: seq<RangeVal>)
    ensures CallFunction(defs, value, "clusters", args)
         == RangeVal(if |args| == 1 then Meeting(Elements(defs.clusters), ByCluster(value), Hostnames(args[0])) else {}, false)
  {
    assert ONE_ARGUMENT[1] == "clusters";
  }

  lemma GetClusterCall(defs: Defs, value: Sections, args: seq<RangeVal>)
    ensures CallFunction(defs, value, "get_cluster", args)
         == RangeVal(if |args| == 1 then FirstHolders(defs.clusters, ByCluster(value), Hostnames(args[0])) else {}, false)
  {
    assert ONE_ARGUMENT[2] == "get_cluster";
  }

  lemma GetGroupsCall(defs: Defs, value: Sections, args: seq<RangeVal>)
    ensures CallFunction(defs, value, "get_groups", args)
         == RangeVal(if |args| == 1 then SectionsMeeting(value, "GROUPS", Hostnames(args[0])) else {}, false)
  {
    assert ONE_ARGUMENT[3] == "get_groups";
  }

  lemma MemCall(defs: Defs, value: Sections, args: seq<RangeVal>, c: string)
    requires |args| == 2 && One(args[0]) && Hostnames(args[0]) == {c}
    ensures CallFunction(defs, value, "mem", args) == RangeVal(SectionsMeeting(value, c, Hostnames(args[1])), false)
  {
    hide SectionsMeeting;
    assert (set c', s | c' in {c} && s in SectionsMeeting(value, c', Hostnames(args[1])) :: s)
        == SectionsMeeting(value, c, Hostnames(args[1]));
  }

  lemma HasCall(defs: Defs, value: Sections, args: seq<RangeVal>, t: string, x: string)
    requires |args| == 2 && One(args[0]) && One(args[1]) && Hostnames(args[0]) == {t} && Hostnames(args[1]) == {x}
    ensures CallFunction(defs, value, "has", args) == RangeVal(Holding(defs.clusters, value, t, x), false)
  {
    assert (set t', x', c | t' in {t} && x' in {x} && c in Holding(defs.clusters, value, t', x') :: c)
        == Holding(defs.clusters, value, t, x);
  }

  lemma WrongCall(defs: Defs, value: Sections, name: string, args: seq<RangeVal>)
    requires (name == "mem" || name == "has") && |args| != 2
    ensures CallFunction(defs, value, name, args) == RangeVal({}, false)
  {
  }

  // Which sections an evaluation reads.

  predicate NamesBelow(rank: Rank, k: nat, names: set<string>) {
    forall h :: h in names ==> rank(SplitName(h).0, SplitName(h).1) < k
  }

  predicate GroupsBelow(rank: Rank, k: nat, names: set<string>) {
    forall h :: h in names ==> rank("GROUPS", h) < k
  }

  predicate ClustersBelow(clusters: seq<string>, rank: Rank, k: nat, section: string) {
    forall c :: c in clusters ==> rank(c, section) < k
  }

  predicate SectionsBelow(value: Sections, rank: Rank, k: nat, c: string) {
    rank(c, "KEYS") < k && forall s :: s in value(c, "KEYS") ==> rank(c, s) < k
  }

  /** The call reads sections of rank below k only. */
  predicate CallBelow(defs: Defs, value: Sections, rank: Rank, k: nat, name: string, args: seq<RangeVal>) {
    && (name == "group" && args != [] ==> GroupsBelow(rank, k, Hostnames(args[0])))
    && (name in ONE_ARGUMENT && |args| == 1 ==> NamesCallBelow(defs, value, rank, k, name, Hostnames(args[0])))
    && (TakesFirst(name, args) && |args| == 2 ==> PairCallBelow(defs, value, rank, k, name, Hostnames(args[0])))
  }

  lemma ClusterCallsBelow(defs: Defs, value: Sections, rank: Rank, k: nat, name: string, args: seq<RangeVal>)
    requires (name == "clusters" || name == "get_cluster") && |args| == 1
    requires CallBelow(defs, value, rank, k, name, args)
    ensures ClustersBelow(defs.clusters, rank, k, "CLUSTER")
  {
    assert ONE_ARGUMENT[1] == "clusters" && ONE_ARGUMENT[2] == "get_cluster";
  }

  lemma GetGroupsBelow(defs: Defs, value: Sections, rank: Rank, k: nat, args: seq<RangeVal>)
    requires |args| == 1 && CallBelow(defs, value, rank, k, "get_groups", args)
    ensures SectionsBelow(value, rank, k, "GROUPS")
  {
    assert ONE_ARGUMENT[3] == "get_groups";
  }

  lemma MemBelow(defs: Defs, value: Sections, rank: Rank, k: nat, args: seq<RangeVal>, c: string)
    requires |args| == 2 && One(args[0]) && c in Hostnames(args[0]) && CallBelow(defs, value, rank, k, "mem", args)
    ensures SectionsBelow(value, rank, k, c)
  {
  }

  lemma HasBelow(defs: Defs, value: Sections, rank: Rank, k: nat, args: seq<RangeVal>, t: string)
    requires |args| == 2 && One(args[0]) && One(args[1]) && t in Hostnames(args[0])
    requires CallBelow(defs, value, rank, k, "has", args)
    ensures ClustersBelow(defs.clusters, rank, k, t)
  {
  }

  predicate NamesCallBelow(defs: Defs, value: Sections, rank: Rank, k: nat, name: string, names: set<string>) {
    if name == "cluster" then NamesBelow(rank, k, names)
    else if name == "get_groups" then SectionsBelow(value, rank, k, "GROUPS")
    else ClustersBelow(defs.clusters, rank, k, "CLUSTER")
  }

  predicate PairCallBelow(defs: Defs, value: Sections, rank: Rank, k: nat, name: string, first: set<string>) {
    if name == "mem" then forall c :: c in first ==> SectionsBelow(value, rank, k, c)
    else forall t :: t in first ==> ClustersBelow(defs.clusters, rank, k, t)
  }

  /** Evaluating e reads sections of rank below k only. */
  predicate ReadsBelow(defs: Defs, value: Sections, rank: Rank, k: nat, e: Expr)
    decreases e
  {
    match e
    case ERegex(_) => CallBelow(defs, value, rank, k, "cluster", [EVERYTHING])
    case EUnion(l, r) => ReadsBelow(defs, value, rank, k, l) && ReadsBelow(defs, value, rank, k, r)
    case EBraces(l, c, r) => ReadsBelow(defs, value, rank, k, l) && ReadsBelow(defs, value, rank, k, c)
      && ReadsBelow(defs, value, rank, k, r)
    case EDiff(l, r) => ReadsBelow(defs, value, rank, k, l) && (r.ERegex? || ReadsBelow(defs, value, rank, k, r))
    case EInter(l, r) => ReadsBelow(defs, value, rank, k, l) && (r.ERegex? || ReadsBelow(defs, value, rank, k, r))
    case ENot(inner) => ReadsBelow(defs, value, rank, k, inner)
      && CallBelow(defs, value, rank, k, "cluster", [EVERYTHING])
    case EGroup(inner) => ReadsBelow(defs, value, rank, k, inner)
      && CallBelow(defs, value, rank, k, "group", [Eval(EnvOf(defs, value), inner)])
    case EFunction(name, args) =>
      && (forall a :: a in args ==> ReadsBelow(defs, value, rank, k, a))
      && CallBelow(defs, value, rank, k, name, EvalAll(EnvOf(defs, value), args))
    case _ => true
  }

  /** Equal values below rank k. */
  ghost predicate AgreeBelow(rank: Rank, k: nat, value: Sections, value': Sections) {
    forall c, s :: rank(c, s) < k ==> value(c, s) == value'(c, s)
  }

  lemma UnionsAgree(value: Sections, value': Sections, rank: Rank, k: nat, names: set<string>)
    requires AgreeBelow(rank, k, value, value')
    ensures NamesBelow(rank, k, names) ==> ClusterUnion(value, names) == ClusterUnion(value', names)
    ensures GroupsBelow(rank, k, names) ==> GroupUnion(value, names) == GroupUnion(value', names)
  {
    hide SplitName;
    if NamesBelow(rank, k, names) {
      assert forall h :: h in names ==> ValueOf(value, h) == ValueOf(value', h);
    }
  }

  lemma MeetingAgrees(listed: set<string>, expand: Expansions, expand': Expansions, names: set<string>)
    requires forall c :: c in listed ==> expand(c) == expand'(c)
    ensures Meeting(listed, expand, names) == Meeting(listed, expand', names)
  {
    forall c | c in listed ensures Meets(expand, c, names) <==> Meets(expand', c, names) {
      assert expand(c) == expand'(c);
    }
  }

  lemma {:induction false} HoldersAgree(clusters: seq<string>, expand: Expansions, expand': Expansions, n: string)
    requires forall c :: c in clusters ==> expand(c) == expand'(c)
    ensures Holders(clusters, expand, n) == Holders(clusters, expand', n)
  {
    if clusters != [] {
      HoldersAgree(clusters[..|clusters| - 1], expand, expand', n);
    }
  }

  lemma SectionsAgree(value: Sections, value': Sections, rank: Rank, k: nat, c: string, names: set<string>)
    requires AgreeBelow(rank, k, value, value') && SectionsBelow(value, rank, k, c)
    ensures SectionsMeeting(value, c, names) == SectionsMeeting(value', c, names)
    ensures SectionsBelow(value', rank, k, c)
  {
    hide Meeting;
    MeetingAgrees(value(c, "KEYS"), BySection(value, c), BySection(value', c), names);
  }

  lemma NamesCallsAgree(defs: Defs, value: Sections, value': Sections, rank: Rank, k: nat, name: string, names: set<string>)
    requires AgreeBelow(rank, k, value, value') && NamesCallBelow(defs, value, rank, k, name, names)
    ensures CallOnNames(defs, value, name, names) == CallOnNames(defs, value', name, names)
    ensures NamesCallBelow(defs, value', rank, k, name, names)
  {
    hide SectionsMeeting, SectionsBelow, Meeting, ClusterUnion, GroupUnion, NamesBelow;
    if name == "cluster" {
      UnionsAgree(value, value', rank, k, names);
    } else if name == "get_groups" {
      SectionsAgree(value, value', rank, k, "GROUPS", names);
    } else {
      MeetingAgrees(Elements(defs.clusters), ByCluster(value), ByCluster(value'), names);
      forall n ensures FirstHolder(defs.clusters, ByCluster(value), n) == FirstHolder(defs.clusters, ByCluster(value'), n) {
        HoldersAgree(defs.clusters, ByCluster(value), ByCluster(value'), n);
      }
      assert FirstHolders(defs.clusters, ByCluster(value), names) == FirstHolders(defs.clusters, ByCluster(value'), names);
    }
  }

  lemma PairCallsAgree(defs: Defs, value: Sections, value': Sections, rank: Rank, k: nat, name: string,
                       first: set<string>, second: set<string>)
    requires AgreeBelow(rank, k, value, value') && PairCallBelow(defs, value, rank, k, name, first)
    ensures CallOnPair(defs, value, name, first, second) == CallOnPair(defs, value', name, first, second)
    ensures PairCallBelow(defs, value', rank, k, name, first)
  {
    hide SectionsMeeting, SectionsBelow;
    if name == "mem" {
      forall c | c in first
        ensures SectionsMeeting(value, c, second) == SectionsMeeting(value', c, second) && SectionsBelow(value', rank, k, c)
      {
        SectionsAgree(value, value', rank, k, c, second);
      }
    } else {
      forall t, x | t in first ensures Holding(defs.clusters, value, t, x) == Holding(defs.clusters, value', t, x) {
        assert ClustersBelow(defs.clusters, rank, k, t);
      }
    }
  }

  lemma CallsAgree(defs: Defs, value: Sections, value': Sections, rank: Rank, k: nat, name: string, args: seq<RangeVal>)
    requires AgreeBelow(rank, k, value, value') && CallBelow(defs, value, rank, k, name, args)
    ensures CallFunction(defs, value, name, args) == CallFunction(defs, value', name, args)
    ensures CallBelow(defs, value', rank, k, name, args)
  {
    hide AgreeBelow, CallOnNames, CallOnPair, NamesCallBelow, PairCallBelow, GroupUnion, GroupsBelow;
    if name == "group" && args != [] {
      UnionsAgree(value, value', rank, k, Hostnames(args[0]));
    } else if name in ONE_ARGUMENT && |args| == 1 {
      NamesCallsAgree(defs, value, value', rank, k, name, Hostnames(args[0]));
    } else if TakesFirst(name, args) && |args| == 2 {
      PairCallsAgree(defs, value, value', rank, k, name, Hostnames(args[0]), Hostnames(args[1]));
    }
  }

  /** An evaluation that reads below rank k does the same wherever the values below k are the same. */
  lemma {:induction false} EvalAgrees(defs: Defs, value: Sections, value': Sections, rank: Rank, k: nat, e: Expr)
    requires AgreeBelow(rank, k, value, value') && ReadsBelow(defs, value, rank, k, e)
    ensures Eval(EnvOf(defs, value), e) == Eval(EnvOf(defs, value'), e)
    ensures ReadsBelow(defs, value', rank, k, e)
    decreases e
  {
    hide AgreeBelow, CallBelow, CallFunction, Bundles;
    var env, env' := EnvOf(defs, value), EnvOf(defs, value');
    match e
    case ERegex(_) =>
      CallsAgree(defs, value, value', rank, k, "cluster", [EVERYTHING]);
    case EUnion(l, r) =>
      EvalAgrees(defs, value, value', rank, k, l);
      EvalAgrees(defs, value, value', rank, k, r);
    case EBraces(l, c, r) =>
      EvalAgrees(defs, value, value', rank, k, l);
      EvalAgrees(defs, value, value', rank, k, c);
      EvalAgrees(defs, value, value', rank, k, r);
    case EDiff(l, r) =>
      EvalAgrees(defs, value, value', rank, k, l);
      if !r.ERegex? { EvalAgrees(defs, value, value', rank, k, r); }
    case EInter(l, r) =>
      EvalAgrees(defs, value, value', rank, k, l);
      if !r.ERegex? { EvalAgrees(defs, value, value', rank, k, r); }
    case ENot(inner) =>
      EvalAgrees(defs, value, value', rank, k, inner);
      CallsAgree(defs, value, value', rank, k, "cluster", [EVERYTHING]);
    case EGroup(inner) =>
      EvalAgrees(defs, value, value', rank, k, inner);
      CallsAgree(defs, value, value', rank, k, "group", [Eval(env, inner)]);
    case EFunction(name, args) =>
      EvalAllAgrees(defs, value, value', rank, k, args);
      CallsAgree(defs, value, value', rank, k, name, EvalAll(env, args));
    case _ =>
  }

  lemma {:induction false} EvalAllAgrees(defs: Defs, value: Sections, value': Sections, rank: Rank, k: nat,
                                         args: seq<Expr>)
    requires AgreeBelow(rank, k, value, value') && forall a :: a in args ==> ReadsBelow(defs, value, rank, k, a)
    ensures EvalAll(EnvOf(defs, value), args) == EvalAll(EnvOf(defs, value'), args)
    ensures forall a :: a in args ==> ReadsBelow(defs, value', rank, k, a)
    decreases args
  {
    hide AgreeBelow, ReadsBelow;
    if args != [] {
      EvalAgrees(defs, value, value', rank, k, args[0]);
      EvalAllAgrees(defs, value, value', rank, k, args[1..]);
      assert args == [args[0]] + args[1..];
    }
  }

  // The value that nested expansion computes.

  const NOTHING: Sections := (_, _) => {}

  /** Expansion to nesting depth n, with bottom for what lies deeper. */
  function Expanded(defs: Defs, bottom: Sections, n: nat): Sections {
    if n == 0 then bottom
    else
      var inner := Expanded(defs, bottom, n - 1);
      (c, s) => SectionValue(defs, inner, c, s)
  }

  /** The texts of the sections of rank below k refer to sections of lower rank only. */
  ghost predicate StratifiedBelow(defs: Defs, rank: Rank, k: nat) {
    forall c, s :: rank(c, s) < k && SectionExpr(defs, c, s).Some? ==>
      ReadsBelow(defs, Expanded(defs, NOTHING, rank(c, s)), rank, rank(c, s), SectionExpr(defs, c, s).value)
  }

  /** So do the texts of all sections. */
  ghost predicate Stratified(defs: Defs, rank: Rank) {
    forall k :: StratifiedBelow(defs, rank, k)
  }

  /** The value of a section: expansion as deep as its rank. */
  function Solution(defs: Defs, rank: Rank): Sections {
    (c, s) => Expanded(defs, NOTHING, rank(c, s) + 1)(c, s)
  }

  lemma LessStratified(defs: Defs, rank: Rank, k: nat, n: nat)
    requires StratifiedBelow(defs, rank, k) && n <= k
    ensures StratifiedBelow(defs, rank, n)
  {
    hide ReadsBelow, SectionExpr, Expanded;
  }

  lemma SectionAgrees(defs: Defs, rank: Rank, k: nat, value: Sections, c: string, s: string)
    requires StratifiedBelow(defs, rank, k) && rank(c, s) < k
    requires AgreeBelow(rank, rank(c, s), Expanded(defs, NOTHING, rank(c, s)), value)
    ensures SectionValue(defs, value, c, s) == Solution(defs, rank)(c, s)
    ensures SectionExpr(defs, c, s).Some? ==>
              ReadsBelow(defs, value, rank, rank(c, s), SectionExpr(defs, c, s).value)
  {
    hide AgreeBelow, ReadsBelow, SectionExpr, EnvOf;
    var n := rank(c, s);
    if SectionExpr(defs, c, s).Some? {
      EvalAgrees(defs, Expanded(defs, NOTHING, n), value, rank, n, SectionExpr(defs, c, s).value);
    }
  }

  /** Expansion deeper than a section's rank gives its value, whatever lies at the bottom. */
  lemma {:induction false} DeepExpansion(defs: Defs, rank: Rank, bottom: Sections, n: nat)
    requires StratifiedBelow(defs, rank, n)
    ensures AgreeBelow(rank, n, Solution(defs, rank), Expanded(defs, bottom, n))
    decreases n
  {
    hide StratifiedBelow, SectionValue;
    forall c, s | rank(c, s) < n
      ensures Solution(defs, rank)(c, s) == Expanded(defs, bottom, n)(c, s)
    {
      LessStratified(defs, rank, n, n - 1);
      LessStratified(defs, rank, n, rank(c, s));
      DeepExpansion(defs, rank, bottom, n - 1);
      DeepExpansion(defs, rank, NOTHING, rank(c, s));
      SectionAgrees(defs, rank, n, Expanded(defs, bottom, n - 1), c, s);
    }
  }

  /** The equations of a system that is stratified below rank k have exactly one solution there, the
      value that expansion computes, and evaluating under it reads sections of lower rank only. */
  lemma UniqueSolution(defs: Defs, rank: Rank, k: nat)
    requires StratifiedBelow(defs, rank, k)
    ensures SolvesBelow(defs, rank, k, Solution(defs, rank))
    ensures forall c, s :: rank(c, s) < k && SectionExpr(defs, c, s).Some? ==>
              ReadsBelow(defs, Solution(defs, rank), rank, rank(c, s), SectionExpr(defs, c, s).value)
  {
    hide StratifiedBelow, SectionValue, ReadsBelow, SectionExpr;
    var value := Solution(defs, rank);
    forall c, s | rank(c, s) < k
      ensures value(c, s) == SectionValue(defs, value, c, s)
      ensures SectionExpr(defs, c, s).Some? ==>
                ReadsBelow(defs, value, rank, rank(c, s), SectionExpr(defs, c, s).value)
    {
      LessStratified(defs, rank, k, rank(c, s));
      DeepExpansion(defs, rank, NOTHING, rank(c, s));
      SectionAgrees(defs, rank, k, value, c, s);
    }
  }

  lemma {:induction false} AnySolutionIsTheSolution(defs: Defs, rank: Rank, value: Sections, n: nat)
    requires StratifiedBelow(defs, rank, n) && SolvesBelow(defs, rank, n, value)
    ensures AgreeBelow(rank, n, Solution(defs, rank), value)
    decreases n
  {
    hide StratifiedBelow, SectionValue;
    forall c, s | rank(c, s) < n ensures Solution(defs, rank)(c, s) == value(c, s) {
      LessStratified(defs, rank, n, rank(c, s));
      AnySolutionIsTheSolution(defs, rank, value, rank(c, s));
      DeepExpansion(defs, rank, NOTHING, rank(c, s));
      SectionAgrees(defs, rank, n, value, c, s);
    }
  }

  // When nested expansion ends.

  /** Expanding the section ends within nesting depth n: it reads only sections whose expansion
      ends within depth n - 1. */
  ghost predicate EndsBy(defs: Defs, n: nat, c: string, s: string)
    decreases n, 0
  {
    n > 0 && (SectionExpr(defs, c, s).Some? ==>
      ReadsBelow(defs, Expanded(defs, NOTHING, n - 1), EndedRank(defs, n - 1), 1, SectionExpr(defs, c, s).value))
  }

  /** Rank 0 for the sections whose expansion ends within depth n, rank 1 for the others. */
  ghost function EndedRank(defs: Defs, n: nat): Rank
    decreases n, 1
  {
    (c, s) => if EndsBy(defs, n, c, s) then 0 else 1
  }

  /** Sections of rank below k have rank' below k'. */
  ghost predicate Within(rank: Rank, k: nat, rank': Rank, k': nat) {
    forall c, s :: rank(c, s) < k ==> rank'(c, s) < k'
  }

  lemma CallsWithin(defs: Defs, value: Sections, rank: Rank, k: nat, rank': Rank, k': nat, name: string, args: seq<RangeVal>)
    requires Within(rank, k, rank', k') && CallBelow(defs, value, rank, k, name, args)
    ensures CallBelow(defs, value, rank', k', name, args)
  {
    hide SplitName, TakesFirst;
  }

  /** What reads only sections below k reads only sections below k' of the other rank. */
  lemma {:induction false} ReadsWithin(defs: Defs, value: Sections, rank: Rank, k: nat, rank': Rank, k': nat, e: Expr)
    requires Within(rank, k, rank', k') && ReadsBelow(defs, value, rank, k, e)
    ensures ReadsBelow(defs, value, rank', k', e)
    decreases e
  {
    hide Within, CallBelow, Eval, EvalAll;
    match e
    case ERegex(_) =>
      CallsWithin(defs, value, rank, k, rank', k', "cluster", [EVERYTHING]);
    case EUnion(l, r) =>
      ReadsWithin(defs, value, rank, k, rank', k', l);
      ReadsWithin(defs, value, rank, k, rank', k', r);
    case EBraces(l, c, r) =>
      ReadsWithin(defs, value, rank, k, rank', k', l);
      ReadsWithin(defs, value, rank, k, rank', k', c);
      ReadsWithin(defs, value, rank, k, rank', k', r);
    case EDiff(l, r) =>
      ReadsWithin(defs, value, rank, k, rank', k', l);
      if !r.ERegex? { ReadsWithin(defs, value, rank, k, rank', k', r); }
    case EInter(l, r) =>
      ReadsWithin(defs, value, rank, k, rank', k', l);
      if !r.ERegex? { ReadsWithin(defs, value, rank, k, rank', k', r); }
    case ENot(inner) =>
      ReadsWithin(defs, value, rank, k, rank', k', inner);
      CallsWithin(defs, value, rank, k, rank', k', "cluster", [EVERYTHING]);
    case EGroup(inner) =>
      ReadsWithin(defs, value, rank, k, rank', k', inner);
      CallsWithin(defs, value, rank, k, rank', k', "group", [Eval(EnvOf(defs, value), inner)]);
    case EFunction(name, args) =>
      forall a | a in args ensures ReadsBelow(defs, value, rank', k', a) {
        ReadsWithin(defs, value, rank, k, rank', k', a);
      }
      CallsWithin(defs, value, rank, k, rank', k', name, EvalAll(EnvOf(defs, value), args));
    case _ =>
  }

  /** An expansion that has ended stays so, and its value no longer depends on the depth or on what
      lies at the bottom. */
  lemma {:induction false} EndedStays(defs: Defs, n: nat, m: nat, bottom: Sections)
    requires n <= m
    ensures AgreeBelow(EndedRank(defs, n), 1, Expanded(defs, NOTHING, n), Expanded(defs, bottom, m))
    ensures Within(EndedRank(defs, n), 1, EndedRank(defs, m), 1)
    decreases n
  {
    hide SectionExpr, ReadsBelow, AgreeBelow, Within, SectionValue;
    if n == 0 {
      NoneEnded(defs, m, Expanded(defs, NOTHING, n), Expanded(defs, bottom, m));
    } else {
      EndedStays(defs, n - 1, m - 1, bottom);
      EndedStays(defs, n - 1, m - 1, NOTHING);
      EndedStep(defs, n, m, bottom);
    }
  }

  lemma NoneEnded(defs: Defs, m: nat, value: Sections, value': Sections)
    ensures AgreeBelow(EndedRank(defs, 0), 1, value, value')
    ensures Within(EndedRank(defs, 0), 1, EndedRank(defs, m), 1)
  {
  }

  lemma EndedStep(defs: Defs, n: nat, m: nat, bottom: Sections)
    requires 0 < n <= m
    requires AgreeBelow(EndedRank(defs, n - 1), 1, Expanded(defs, NOTHING, n - 1), Expanded(defs, bottom, m - 1))
    requires AgreeBelow(EndedRank(defs, n - 1), 1, Expanded(defs, NOTHING, n - 1), Expanded(defs, NOTHING, m - 1))
    requires Within(EndedRank(defs, n - 1), 1, EndedRank(defs, m - 1), 1)
    ensures AgreeBelow(EndedRank(defs, n), 1, Expanded(defs, NOTHING, n), Expanded(defs, bottom, m))
    ensures Within(EndedRank(defs, n), 1, EndedRank(defs, m), 1)
  {
    hide SectionExpr, ReadsBelow, Eval;
    forall c, s | EndsBy(defs, n, c, s)
      ensures Expanded(defs, NOTHING, n)(c, s) == Expanded(defs, bottom, m)(c, s) && EndsBy(defs, m, c, s)
    {
      EndedSection(defs, n, m, bottom, c, s);
    }
  }

  lemma EndedSection(defs: Defs, n: nat, m: nat, bottom: Sections, c: string, s: string)
    requires 0 < n <= m && EndsBy(defs, n, c, s)
    requires AgreeBelow(EndedRank(defs, n - 1), 1, Expanded(defs, NOTHING, n - 1), Expanded(defs, bottom, m - 1))
    requires AgreeBelow(EndedRank(defs, n - 1), 1, Expanded(defs, NOTHING, n - 1), Expanded(defs, NOTHING, m - 1))
    requires Within(EndedRank(defs, n - 1), 1, EndedRank(defs, m - 1), 1)
    ensures Expanded(defs, NOTHING, n)(c, s) == Expanded(defs, bottom, m)(c, s) && EndsBy(defs, m, c, s)
  {
    hide SectionExpr, ReadsBelow, AgreeBelow, Within, EnvOf, Eval;
    if SectionExpr(defs, c, s).Some? {
      var e := SectionExpr(defs, c, s).value;
      var rank := EndedRank(defs, n - 1);
      EvalAgrees(defs, Expanded(defs, NOTHING, n - 1), Expanded(defs, bottom, m - 1), rank, 1, e);
      EvalAgrees(defs, Expanded(defs, NOTHING, n - 1), Expanded(defs, NOTHING, m - 1), rank, 1, e);
      ReadsWithin(defs, Expanded(defs, NOTHING, m - 1), rank, 1, EndedRank(defs, m - 1), 1, e);
    }
  }

  /** Where the system is stratified, expansion ends within the rank. */
  lemma {:induction false} StratifiedEnds(defs: Defs, rank: Rank, n: nat)
    requires StratifiedBelow(defs, rank, n)
    ensures Within(rank, n, EndedRank(defs, n), 1)
    decreases n
  {
    hide SectionExpr, ReadsBelow, StratifiedBelow, AgreeBelow, Expanded;
    forall c, s | rank(c, s) < n ensures EndsBy(defs, n, c, s) {
      LessStratified(defs, rank, n, n - 1);
      StratifiedEnds(defs, rank, n - 1);
      StratifiedSectionEnds(defs, rank, n, c, s);
    }
  }

  lemma StratifiedSectionEnds(defs: Defs, rank: Rank, n: nat, c: string, s: string)
    requires StratifiedBelow(defs, rank, n) && rank(c, s) < n && Within(rank, n - 1, EndedRank(defs, n - 1), 1)
    ensures EndsBy(defs, n, c, s)
  {
    hide ReadsBelow, AgreeBelow, Expanded, EndedRank, SectionExpr;
    if SectionExpr(defs, c, s).Some? {
      var e := SectionExpr(defs, c, s).value;
      var r := rank(c, s);
      LessStratified(defs, rank, n, r);
      LessStratified(defs, rank, n, n - 1);
      DeepExpansion(defs, rank, NOTHING, r);
      DeepExpansion(defs, rank, NOTHING, n - 1);
      AgreeThrough(rank, r, n - 1, Expanded(defs, NOTHING, r), Solution(defs, rank), Expanded(defs, NOTHING, n - 1));
      EvalAgrees(defs, Expanded(defs, NOTHING, r), Expanded(defs, NOTHING, n - 1), rank, r, e);
      ReadsWithin(defs, Expanded(defs, NOTHING, n - 1), rank, r, EndedRank(defs, n - 1), 1, e);
    }
  }

  lemma AgreeThrough(rank: Rank, r: nat, n: nat, a: Sections, b: Sections, c: Sections)
    requires r <= n && AgreeBelow(rank, r, b, a) && AgreeBelow(rank, n, b, c)
    ensures AgreeBelow(rank, r, a, c)
  {
  }

  /** The least depth up to n within which expanding the section ends, or n + 1. */
  ghost function Depth(defs: Defs, n: nat, c: string, s: string): nat {
    if n == 0 then 1
    else if Depth(defs, n - 1, c, s) <= n - 1 then Depth(defs, n - 1, c, s)
    else if EndsBy(defs, n, c, s) then n
    else n + 1
  }

  lemma {:induction false} DepthIsLeast(defs: Defs, n: nat, c: string, s: string)
    ensures var d := Depth(defs, n, c, s);
            && 0 < d <= n + 1 && (d <= n ==> EndsBy(defs, d, c, s))
            && forall m :: 0 <= m <= n && m < d ==> !EndsBy(defs, m, c, s)
  {
    NoneByZero(defs, c, s);
    hide EndsBy;
    if n > 0 {
      DepthIsLeast(defs, n - 1, c, s);
    }
  }

  lemma NoneByZero(defs: Defs, c: string, s: string)
    ensures !EndsBy(defs, 0, c, s)
  {
  }

  ghost predicate Ends(defs: Defs, c: string, s: string) {
    exists n: nat :: EndsBy(defs, n, c, s)
  }

  /** One less than the least depth within which expansion ends; limit where it does not. */
  ghost function EndingRank(defs: Defs, limit: nat): Rank {
    (c, s) => if Ends(defs, c, s) then LeastDepth(defs, c, s) - 1 else limit
  }

  ghost function LeastDepth(defs: Defs, c: string, s: string): (d: nat)
    requires Ends(defs, c, s)
    ensures 0 < d && EndsBy(defs, d, c, s) && forall m: nat :: m < d ==> !EndsBy(defs, m, c, s)
  {
    var n: nat :| EndsBy(defs, n, c, s);
    DepthIsLeast(defs, n, c, s);
    Depth(defs, n, c, s)
  }

  /** Where expansion ends, the depth it needs is a rank that stratifies the system. */
  lemma EndingStratifies(defs: Defs, k: nat)
    ensures StratifiedBelow(defs, EndingRank(defs, k), k)
  {
    hide ReadsBelow, Expanded, SectionExpr, EndsBy, LeastDepth;
    var rank := EndingRank(defs, k);
    forall c, s | rank(c, s) < k && SectionExpr(defs, c, s).Some?
      ensures ReadsBelow(defs, Expanded(defs, NOTHING, rank(c, s)), rank, rank(c, s), SectionExpr(defs, c, s).value)
    {
      EndingSection(defs, k, c, s);
    }
  }

  lemma EndingSection(defs: Defs, limit: nat, c: string, s: string)
    requires Ends(defs, c, s) && SectionExpr(defs, c, s).Some?
    ensures var rank := EndingRank(defs, limit);
            ReadsBelow(defs, Expanded(defs, NOTHING, rank(c, s)), rank, rank(c, s), SectionExpr(defs, c, s).value)
  {
    hide ReadsBelow, Expanded, SectionExpr, Within, LeastDepth;
    var d := LeastDepth(defs, c, s);
    var rank := EndingRank(defs, limit);
    assert EndsBy(defs, d, c, s);
    EndedIsLower(defs, limit, d - 1);
    ReadsWithin(defs, Expanded(defs, NOTHING, d - 1), EndedRank(defs, d - 1), 1, rank, d - 1,
                SectionExpr(defs, c, s).value);
  }

  lemma EndedIsLower(defs: Defs, limit: nat, n: nat)
    ensures Within(EndedRank(defs, n), 1, EndingRank(defs, limit), n)
  {
    hide EndsBy, LeastDepth;
    var rank := EndingRank(defs, limit);
    forall c, s | EndsBy(defs, n, c, s) ensures rank(c, s) < n {
      assert LeastDepth(defs, c, s) <= n;
    }
  }

  /** Expanding a section ends if and only if some rank stratifies the system up to the section. */
  lemma EndsExactly(defs: Defs, c: string, s: string)
    ensures Ends(defs, c, s) <==> exists rank: Rank, k: nat :: StratifiedBelow(defs, rank, k) && rank(c, s) < k
  {
    hide StratifiedBelow, EndsBy, LeastDepth;
    if Ends(defs, c, s) {
      var k := LeastDepth(defs, c, s);
      var rank := EndingRank(defs, k);
      EndingStratifies(defs, k);
      assert StratifiedBelow(defs, rank, k) && rank(c, s) < k;
    }
    if exists rank: Rank, k: nat :: StratifiedBelow(defs, rank, k) && rank(c, s) < k {
      var rank: Rank, k: nat :| StratifiedBelow(defs, rank, k) && rank(c, s) < k;
      StratifiedEnds(defs, rank, k);
    }
  }

  /** Expansion ends for every section if and only if some rank stratifies the whole system. */
  lemma AllEndExactly(defs: Defs)
    ensures (forall c, s :: Ends(defs, c, s)) <==> exists rank: Rank :: Stratified(defs, rank)
  {
    hide StratifiedBelow, Ends, EndingRank;
    if forall c, s :: Ends(defs, c, s) {
      forall k: nat ensures StratifiedBelow(defs, EndingRank(defs, 0), k) {
        AllEndingStratifies(defs, k);
      }
      assert Stratified(defs, EndingRank(defs, 0));
    }
    if exists rank: Rank :: Stratified(defs, rank) {
      var rank: Rank :| Stratified(defs, rank);
      forall c, s ensures Ends(defs, c, s) {
        assert StratifiedBelow(defs, rank, rank(c, s) + 1);
        EndsExactly(defs, c, s);
      }
    }
  }

  lemma AllEndingStratifies(defs: Defs, k: nat)
    requires forall c, s :: Ends(defs, c, s)
    ensures StratifiedBelow(defs, EndingRank(defs, 0), k)
  {
    hide ReadsBelow, Expanded, SectionExpr, Ends, EndingRank;
    forall c, s | SectionExpr(defs, c, s).Some?
      ensures var rank := EndingRank(defs, 0);
              ReadsBelow(defs, Expanded(defs, NOTHING, rank(c, s)), rank, rank(c, s), SectionExpr(defs, c, s).value)
    {
      EndingSection(defs, 0, c, s);
    }
  }

  /** Evaluating e, as what a request is given, ends within nesting depth n. */
  ghost predicate TextEndsBy(defs: Defs, n: nat, e: Expr) {
    ReadsBelow(defs, Expanded(defs, NOTHING, n), EndedRank(defs, n), 1, e)
  }

  /** The system is stratified up to a bound that evaluating e reads below. */
  ghost predicate StratifiedFor(defs: Defs, rank: Rank, k: nat, e: Expr) {
    StratifiedBelow(defs, rank, k) && ReadsBelow(defs, Solution(defs, rank), rank, k, e)
  }

  /** Expanding a text ends if and only if some rank stratifies the system as far as the text reads. */
  lemma TextEndsExactly(defs: Defs, e: Expr)
    ensures (exists n: nat :: TextEndsBy(defs, n, e)) <==> (exists rank: Rank, k: nat :: StratifiedFor(defs, rank, k, e))
  {
    hide StratifiedBelow, ReadsBelow, Solution, EndingRank, EndedRank, Expanded;
    if exists n: nat :: TextEndsBy(defs, n, e) {
      var n: nat :| TextEndsBy(defs, n, e);
      EndingTextReads(defs, n, e);
      assert StratifiedFor(defs, EndingRank(defs, n), n, e);
    }
    if exists rank: Rank, k: nat :: StratifiedFor(defs, rank, k, e) {
      var rank: Rank, k: nat :| StratifiedFor(defs, rank, k, e);
      StratifiedEnds(defs, rank, k);
      DeepExpansion(defs, rank, NOTHING, k);
      EvalAgrees(defs, Solution(defs, rank), Expanded(defs, NOTHING, k), rank, k, e);
      ReadsWithin(defs, Expanded(defs, NOTHING, k), rank, k, EndedRank(defs, k), 1, e);
      assert TextEndsBy(defs, k, e);
    }
  }

  lemma EndingTextReads(defs: Defs, n: nat, e: Expr)
    requires TextEndsBy(defs, n, e)
    ensures StratifiedBelow(defs, EndingRank(defs, n), n)
    ensures ReadsBelow(defs, Solution(defs, EndingRank(defs, n)), EndingRank(defs, n), n, e)
  {
    hide StratifiedBelow, ReadsBelow, Solution, EndingRank, EndedRank, Expanded, AgreeBelow;
    var rank := EndingRank(defs, n);
    EndingStratifies(defs, n);
    EndedIsLower(defs, n, n);
    ReadsWithin(defs, Expanded(defs, NOTHING, n), EndedRank(defs, n), 1, rank, n, e);
    DeepExpansion(defs, rank, NOTHING, n);
    AgreeBack(rank, n, Solution(defs, rank), Expanded(defs, NOTHING, n));
    EvalAgrees(defs, Expanded(defs, NOTHING, n), Solution(defs, rank), rank, n, e);
  }

  lemma AgreeBack(rank: Rank, n: nat, a: Sections, b: Sections)
    requires AgreeBelow(rank, n, a, b)
    ensures AgreeBelow(rank, n, b, a)
  {
  }

  // When texts name what they refer to.

  /** An expression whose value depends on no function and no regular expression. */
  predicate Fixed(e: Expr) {
    match e
    case EUnion(l, r) => Fixed(l) && Fixed(r)
    case EBraces(l, c, r) => Fixed(l) && Fixed(c) && Fixed(r)
    case EDiff(l, r) => Fixed(l) && Fixed(r)
    case EInter(l, r) => Fixed(l) && Fixed(r)
    case ERegex(_) => false
    case ENot(_) => false
    case EGroup(_) => false
    case EFunction(_, _) => false
    case _ => true
  }

  lemma {:induction false} FixedValue(env: Env, env': Env, e: Expr)
    requires Fixed(e)
    ensures Eval(env, e) == Eval(env', e)
  {
    hide Bundles;
    match e
    case EUnion(l, r) =>
      FixedValue(env, env', l);
      FixedValue(env, env', r);
    case EBraces(l, c, r) =>
      FixedValue(env, env', l);
      FixedValue(env, env', c);
      FixedValue(env, env', r);
    case EDiff(l, r) =>
      FixedValue(env, env', l);
      FixedValue(env, env', r);
    case EInter(l, r) =>
      FixedValue(env, env', l);
      FixedValue(env, env', r);
    case _ =>
  }

  /** The functions that read sections. */
  predicate ReadsSections(name: string) {
    name in ONE_ARGUMENT || name == "group" || name == "mem" || name == "has"
  }

  /** Whatever the sections hold, the call reads sections of rank below k only. For mem and
      get_groups, whose sections KEYS lists, these are all sections that might be listed. */
  ghost predicate AlwaysBelow(defs: Defs, rank: Rank, k: nat, name: string, args: seq<RangeVal>) {
    forall value: Sections :: CallBelow(defs, value, rank, k, name, args)
  }

  /** Every reference of e is to fixed names, of sections with rank below k. */
  ghost predicate RefersBelow(defs: Defs, rank: Rank, k: nat, e: Expr)
    decreases e
  {
    match e
    case ERegex(_) => AlwaysBelow(defs, rank, k, "cluster", [EVERYTHING])
    case EUnion(l, r) => RefersBelow(defs, rank, k, l) && RefersBelow(defs, rank, k, r)
    case EBraces(l, c, r) => RefersBelow(defs, rank, k, l) && RefersBelow(defs, rank, k, c)
      && RefersBelow(defs, rank, k, r)
    case EDiff(l, r) => RefersBelow(defs, rank, k, l) && (r.ERegex? || RefersBelow(defs, rank, k, r))
    case EInter(l, r) => RefersBelow(defs, rank, k, l) && (r.ERegex? || RefersBelow(defs, rank, k, r))
    case ENot(inner) => RefersBelow(defs, rank, k, inner) && AlwaysBelow(defs, rank, k, "cluster", [EVERYTHING])
    case EGroup(inner) => Fixed(inner) && AlwaysBelow(defs, rank, k, "group", [FixedEval(defs, inner)])
    case EFunction(name, args) =>
      if ReadsSections(name)
      then (forall a :: a in args ==> Fixed(a)) && AlwaysBelow(defs, rank, k, name, EvalAll(EnvOf(defs, NOTHING), args))
      else forall a :: a in args ==> RefersBelow(defs, rank, k, a)
    case _ => true
  }

  /** The value of a fixed expression, for which no section matters. */
  function FixedEval(defs: Defs, e: Expr): RangeVal {
    Eval(EnvOf(defs, NOTHING), e)
  }

  lemma {:induction false} FixedReads(defs: Defs, value: Sections, rank: Rank, k: nat, e: Expr)
    requires Fixed(e)
    ensures ReadsBelow(defs, value, rank, k, e)
  {
    match e
    case EUnion(l, r) =>
      FixedReads(defs, value, rank, k, l);
      FixedReads(defs, value, rank, k, r);
    case EBraces(l, c, r) =>
      FixedReads(defs, value, rank, k, l);
      FixedReads(defs, value, rank, k, c);
      FixedReads(defs, value, rank, k, r);
    case EDiff(l, r) =>
      FixedReads(defs, value, rank, k, l);
      FixedReads(defs, value, rank, k, r);
    case EInter(l, r) =>
      FixedReads(defs, value, rank, k, l);
      FixedReads(defs, value, rank, k, r);
    case _ =>
  }

  lemma {:induction false} FixedArgs(env: Env, env': Env, args: seq<Expr>)
    requires forall a :: a in args ==> Fixed(a)
    ensures EvalAll(env, args) == EvalAll(env', args)
  {
    if args != [] {
      FixedValue(env, env', args[0]);
      FixedArgs(env, env', args[1..]);
    }
  }

  lemma {:induction false} ReferencesAreReads(defs: Defs, value: Sections, rank: Rank, k: nat, e: Expr)
    requires RefersBelow(defs, rank, k, e)
    ensures ReadsBelow(defs, value, rank, k, e)
    decreases e
  {
    hide CallBelow, Fixed, Eval, EvalAll, ReadsSections;
    match e
    case EUnion(l, r) =>
      ReferencesAreReads(defs, value, rank, k, l);
      ReferencesAreReads(defs, value, rank, k, r);
    case EBraces(l, c, r) =>
      ReferencesAreReads(defs, value, rank, k, l);
      ReferencesAreReads(defs, value, rank, k, c);
      ReferencesAreReads(defs, value, rank, k, r);
    case EDiff(l, r) =>
      ReferencesAreReads(defs, value, rank, k, l);
      if !r.ERegex? { ReferencesAreReads(defs, value, rank, k, r); }
    case EInter(l, r) =>
      ReferencesAreReads(defs, value, rank, k, l);
      if !r.ERegex? { ReferencesAreReads(defs, value, rank, k, r); }
    case ENot(inner) =>
      ReferencesAreReads(defs, value, rank, k, inner);
    case EGroup(inner) =>
      FixedReads(defs, value, rank, k, inner);
      FixedValue(EnvOf(defs, NOTHING), EnvOf(defs, value), inner);
    case EFunction(name, args) =>
      if ReadsSections(name) {
        FixedArgs(EnvOf(defs, NOTHING), EnvOf(defs, value), args);
        forall a | a in args ensures ReadsBelow(defs, value, rank, k, a) { FixedReads(defs, value, rank, k, a); }
      } else {
        OtherCallBelow(defs, value, rank, k, name, EvalAll(EnvOf(defs, value), args));
        forall a | a in args ensures ReadsBelow(defs, value, rank, k, a) { ReferencesAreReads(defs, value, rank, k, a); }
      }
    case _ =>
  }

  lemma OtherCallBelow(defs: Defs, value: Sections, rank: Rank, k: nat, name: string, args: seq<RangeVal>)
    requires !ReadsSections(name)
    ensures CallBelow(defs, value, rank, k, name, args)
  {
  }

  /** A system is stratified below rank k when every text of such a section names its references,
      all of lower rank. */
  lemma NamedReferencesStratify(defs: Defs, rank: Rank, k: nat)
    requires forall c, s :: rank(c, s) < k && SectionExpr(defs, c, s).Some? ==>
               RefersBelow(defs, rank, rank(c, s), SectionExpr(defs, c, s).value)
    ensures StratifiedBelow(defs, rank, k)
  {
    hide RefersBelow, ReadsBelow, SectionExpr, Expanded;
    forall c, s | rank(c, s) < k && SectionExpr(defs, c, s).Some?
      ensures ReadsBelow(defs, Expanded(defs, NOTHING, rank(c, s)), rank, rank(c, s), SectionExpr(defs, c, s).value)
    {
      ReferencesAreReads(defs, Expanded(defs, NOTHING, rank(c, s)), rank, rank(c, s), SectionExpr(defs, c, s).value);
    }
  }

  lemma SplitJoined(c: string, s: string)
    requires ':' !in c
    ensures SplitName(c + ":" + s) == (c, s)
  {
    var h := c + ":" + s;
    IndexFound(c, ':', s);
    assert h[..|c|] == c && h[|c| + 1..] == s;
  }

  lemma CallOnLiteral(env: Env, name: string, h: string)
    ensures Eval(env, EFunction(name, [ELiteral(h)])) == env.functions(name, [RangeVal({h}, false)])
  {
    var args := [ELiteral(h)];
    assert args[1..] == [];
    assert EvalAll(env, args) == [Eval(env, args[0])] + EvalAll(env, args[1..]);
    assert EvalAll(env, args) == [RangeVal({h}, false)];
    assert Eval(env, EFunction(name, args)) == env.functions(name, EvalAll(env, args));
  }

  lemma CallIs(defs: Defs, value: Sections, name: string, args: seq<RangeVal>)
    ensures EnvOf(defs, value).functions(name, args) == CallFunction(defs, value, name, args)
  {
  }

  lemma ClusterOfOne(defs: Defs, value: Sections, h: string)
    ensures EnvOf(defs, value).functions("cluster", [RangeVal({h}, false)]) == RangeVal(ValueOf(value, h), false)
  {
    hide ValueOf;
    assert ClusterUnion(value, {h}) == ValueOf(value, h);
    var args := [RangeVal({h}, false)];
    assert |args| == 1 && Hostnames(args[0]) == {h};
    CallIs(defs, value, "cluster", args);
  }

  /** Without ranks the equations may not decide: a section that refers to itself may have any value. */
  lemma SelfReference(defs: Defs, c: string, s: string, value: Sections)
    requires ':' !in c
    requires SectionExpr(defs, c, s) == Some(EFunction("cluster", [ELiteral(c + ":" + s)]))
    ensures SectionValue(defs, value, c, s) == value(c, s)
  {
    hide SplitName, SectionExpr, Eval, EnvOf;
    SplitJoined(c, s);
    CallOnLiteral(EnvOf(defs, value), "cluster", c + ":" + s);
    ClusterOfOne(defs, value, c + ":" + s);
  }

  /** Expanding it never ends. */
  lemma {:induction false} SelfReferenceNeverEnds(defs: Defs, c: string, s: string, n: nat)
    requires ':' !in c
    requires SectionExpr(defs, c, s) == Some(EFunction("cluster", [ELiteral(c + ":" + s)]))
    ensures !EndsBy(defs, n, c, s)
  {
    hide SectionExpr, Expanded;
    if n > 0 {
      SelfReferenceNeverEnds(defs, c, s, n - 1);
      if EndsBy(defs, n, c, s) {
        SelfRead(defs, Expanded(defs, NOTHING, n - 1), EndedRank(defs, n - 1), c, s);
      }
    }
  }

  lemma SelfRead(defs: Defs, value: Sections, rank: Rank, c: string, s: string)
    requires ':' !in c
    requires ReadsBelow(defs, value, rank, 1, EFunction("cluster", [ELiteral(c + ":" + s)]))
    ensures rank(c, s) < 1
  {
    hide SplitName, ClusterUnion;
    var h := c + ":" + s;
    SplitJoined(c, s);
    var args := [ELiteral(h)];
    assert args[1..] == [];
    assert EvalAll(EnvOf(defs, value), args) == [RangeVal({h}, false)];
    assert CallBelow(defs, value, rank, 1, "cluster", [RangeVal({h}, false)]);
    assert ONE_ARGUMENT[0] == "cluster";
    assert h in Hostnames(RangeVal({h}, false));
  }
}
