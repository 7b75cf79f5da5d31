/** The cache of cluster sections, keyed by file and checked by modification time
    (_expand_cluster in yamlfile.c, the cache functions of libcrange.c). */
module ClusterCache {
  import opened Text
  import opened HashSets
  import opened ClusterKeys

  datatype File = File(mtime: int, doc: Document)

  type Disk = map<string, File>

  datatype Entry = Entry(mtime: int, sections: map<string, Data>)

  function PathOf(yamlPath: string, cluster: string): string {
    yamlPath + "/" + cluster + ".yaml"
  }

  lemma PathInjective(yamlPath: string, c: string, c': string)
    requires PathOf(yamlPath, c) == PathOf(yamlPath, c')
    ensures c == c'
  {
    var p, q := PathOf(yamlPath, c), PathOf(yamlPath, c');
    var n := |yamlPath| + 1;
    assert p[n..|p| - 5] == c && q[n..|q| - 5] == c';
  }

  /** The text to expand for a section: none, or the empty text for a missing CLUSTER section.
      isCluster says which names compare equal to CLUSTER (apr_strnatcmp). */
  function TextOf(sections: map<string, Data>, section: string, isCluster: string -> bool): Option<string> {
    if section in sections && sections[section].Some? then sections[section]
    else if isCluster(section) then Some("")
    else None
  }

  /** Where the cluster files are, what their documents hold, and which names mean CLUSTER. */
  datatype Site = Site(yamlPath: string, keys: (string, Document) -> map<string, Data>, isCluster: string -> bool)
  {
    function Path(cluster: string): string {
      PathOf(yamlPath, cluster)
    }

    function Text(cluster: string, doc: Document, section: string): Option<string> {
      TextOf(keys(cluster, doc), section, isCluster)
    }

    /** What a lookup answers without any cache. */
    function FreshText(disk: Disk, cluster: string, section: string): Option<string> {
      if Path(cluster) in disk then Text(cluster, disk[Path(cluster)].doc, section) else None
    }
  }

  /** What happens to a library handle: files change, caching is switched, caches are cleared,
      and sections are looked up. */
  datatype Event =
    | Write(path: string, file: File)
    | Delete(path: string)
    | WantCaching(on: bool)
    | ClearCaches
    | Ask(cluster: string, section: string)

  function DiskAfter(disk: Disk, e: Event): Disk {
    match e
    case Write(path, file) => disk[path := file]
    case Delete(path) => disk - {path}
    case _ => disk
  }

  function DiskAfterAll(disk: Disk, events: seq<Event>): Disk {
    if events == [] then disk
    else DiskAfter(DiskAfterAll(disk, events[..|events| - 1]), events[|events| - 1])
  }

  /** The answer to one event without any cache: only a lookup has one. */
  function FreshAnswer(site: Site, disk: Disk, e: Event): seq<Option<string>> {
    if e.Ask? then [site.FreshText(disk, e.cluster, e.section)] else []
  }

  /** The answers of a run without any cache. */
  function FreshAnswers(site: Site, disk: Disk, events: seq<Event>): seq<Option<string>> {
    if events == [] then []
    else
      var n := |events| - 1;
      FreshAnswers(site, disk, events[..n]) + FreshAnswer(site, DiskAfterAll(disk, events[..n]), events[n])
  }

  // The cache, as the files read and the times they had.

  datatype Handle = Handle(wantCaching: bool, cache: Option<Disk>)

  const NEW_HANDLE := Handle(true, None)

  /** The file a lookup answers from: the cached one when it is as old as the file on disk. */
  function FileRead(h: Handle, disk: Disk, path: string): File
    requires path in disk
  {
    if h.cache.Some? && path in h.cache.value && h.cache.value[path].mtime == disk[path].mtime
    then h.cache.value[path] else disk[path]
  }

  function CachedText(site: Site, h: Handle, disk: Disk, cluster: string, section: string): Option<string> {
    var path := site.Path(cluster);
    if path in disk then site.Text(cluster, FileRead(h, disk, path).doc, section) else None
  }

  /** A lookup starts a cache when one is wanted, and keeps the file it answered from. */
  function AfterAsk(h: Handle, disk: Disk, path: string): Handle {
    var cache := if h.cache.None? && h.wantCaching then Some(map[]) else h.cache;
    h.(cache := if cache.Some? && path in disk then Some(cache.value[path := FileRead(h, disk, path)]) else cache)
  }

  function HandleAfter(site: Site, h: Handle, disk: Disk, e: Event): Handle {
    match e
    case WantCaching(on) => h.(wantCaching := on)
    case ClearCaches => h.(cache := None)
    case Ask(c, _) => AfterAsk(h, disk, site.Path(c))
    case _ => h
  }

  function HandleAfterAll(site: Site, h: Handle, disk: Disk, events: seq<Event>): Handle {
    if events == [] then h
    else
      var n := |events| - 1;
      HandleAfter(site, HandleAfterAll(site, h, disk, events[..n]), DiskAfterAll(disk, events[..n]), events[n])
  }

  function CachedAnswer(site: Site, h: Handle, disk: Disk, e: Event): seq<Option<string>> {
    if e.Ask? then [CachedText(site, h, disk, e.cluster, e.section)] else []
  }

  /** The answers of a run through the cache. */
  function CachedAnswers(site: Site, h: Handle, disk: Disk, events: seq<Event>): seq<Option<string>> {
    if events == [] then []
    else
      var n := |events| - 1;
      CachedAnswers(site, h, disk, events[..n])
        + CachedAnswer(site, HandleAfterAll(site, h, disk, events[..n]), DiskAfterAll(disk, events[..n]), events[n])
  }

  /** What a lookup answers: the text that the sections of the file give the section; without one
      the empty text for CLUSTER and nothing for any other section; nothing without a file. */
  lemma LookupAnswers(site: Site, h: Handle, disk: Disk, cluster: string, section: string)
    ensures var path := site.yamlPath + "/" + cluster + ".yaml";
            var answer := CachedText(site, h, disk, cluster, section);
            if path !in disk then answer == None
            else
              var cached := h.cache.Some? && path in h.cache.value && h.cache.value[path].mtime == disk[path].mtime;
              var sections := site.keys(cluster, if cached then h.cache.value[path].doc else disk[path].doc);
              && (forall t :: section in sections && sections[section] == Some(t) ==> answer == Some(t))
              && (section !in sections || sections[section].None? ==>
                    answer == if site.isCluster(section) then Some("") else None)
  {
  }

  /** A handle that wants no cache reads every file anew, and so does the first lookup after the
      caches are cleared. */
  lemma {:induction false} UncachedIsFresh(site: Site, disk: Disk, events: seq<Event>)
    requires forall e :: e in events && e.WantCaching? ==> !e.on
    ensures HandleAfterAll(site, Handle(false, None), disk, events) == Handle(false, None)
    ensures CachedAnswers(site, Handle(false, None), disk, events) == FreshAnswers(site, disk, events)
  {
    hide Site.Text, Site.Path;
    if events != [] {
      UncachedIsFresh(site, disk, events[..|events| - 1]);
    }
  }

  lemma ClearedIsFresh(site: Site, h: Handle, disk: Disk, events: seq<Event>, c: string, s: string)
    requires events != [] && events[|events| - 1] == ClearCaches
    ensures CachedText(site, HandleAfterAll(site, h, disk, events), DiskAfterAll(disk, events), c, s)
         == site.FreshText(DiskAfterAll(disk, events), c, s)
  {
    hide Site.Text, Site.Path, DiskAfterAll;
  }

  lemma RunStep(site: Site, h: Handle, disk: Disk, events: seq<Event>, i: nat)
    requires i < |events|
    ensures var disk' := DiskAfterAll(disk, events[..i]);
            var h' := HandleAfterAll(site, h, disk, events[..i]);
            && DiskAfterAll(disk, events[..i + 1]) == DiskAfter(disk', events[i])
            && HandleAfterAll(site, h, disk, events[..i + 1]) == HandleAfter(site, h', disk', events[i])
            && CachedAnswers(site, h, disk, events[..i + 1])
                 == CachedAnswers(site, h, disk, events[..i]) + CachedAnswer(site, h', disk', events[i])
  {
    hide DiskAfter, HandleAfter, CachedAnswer;
    assert events[..i + 1][..i] == events[..i];
  }

  // When the cache shows.

  /** Which files may ever stand at a path. */
  type Files = (string, File) -> bool

  ghost predicate DiskMay(disk: Disk, may: Files) {
    forall p :: p in disk ==> may(p, disk[p])
  }

  ghost predicate EventsMay(events: seq<Event>, may: Files) {
    forall e :: e in events && e.Write? ==> may(e.path, e.file)
  }

  /** Files with one modification time have the same section texts. */
  ghost predicate TimesTellTexts(site: Site, may: Files) {
    forall c, s, f, g :: may(site.Path(c), f) && may(site.Path(c), g) && f.mtime == g.mtime ==>
      site.Text(c, f.doc, s) == site.Text(c, g.doc, s)
  }

  /** No run tells the cache from reading the files anew. */
  ghost predicate Transparent(site: Site, may: Files) {
    forall disk, events :: DiskMay(disk, may) && EventsMay(events, may) ==>
      CachedAnswers(site, NEW_HANDLE, disk, events) == FreshAnswers(site, disk, events)
  }

  ghost predicate HandleMay(h: Handle, may: Files) {
    h.cache.Some? ==> DiskMay(h.cache.value, may)
  }

  lemma {:induction false} StaysPossible(site: Site, may: Files, disk: Disk, events: seq<Event>)
    requires DiskMay(disk, may) && EventsMay(events, may)
    ensures DiskMay(DiskAfterAll(disk, events), may)
    ensures HandleMay(HandleAfterAll(site, NEW_HANDLE, disk, events), may)
  {
    if events != [] {
      var n := |events| - 1;
      StaysPossible(site, may, disk, events[..n]);
      assert events[n] in events;
    }
  }

  lemma SameText(site: Site, may: Files, h: Handle, disk: Disk, c: string, s: string)
    requires TimesTellTexts(site, may) && DiskMay(disk, may) && HandleMay(h, may)
    ensures CachedText(site, h, disk, c, s) == site.FreshText(disk, c, s)
  {
    hide Site.Text;
  }

  lemma {:induction false} SameAnswers(site: Site, may: Files, disk: Disk, events: seq<Event>)
    requires TimesTellTexts(site, may) && DiskMay(disk, may) && EventsMay(events, may)
    ensures CachedAnswers(site, NEW_HANDLE, disk, events) == FreshAnswers(site, disk, events)
  {
    hide TimesTellTexts, CachedText, Site.FreshText, DiskMay, HandleMay, HandleAfterAll, DiskAfterAll;
    if events != [] {
      var n := |events| - 1;
      assert EventsMay(events[..n], may);
      SameAnswers(site, may, disk, events[..n]);
      StaysPossible(site, may, disk, events[..n]);
      if events[n].Ask? {
        SameText(site, may, HandleAfterAll(site, NEW_HANDLE, disk, events[..n]), DiskAfterAll(disk, events[..n]),
                 events[n].cluster, events[n].section);
      }
    }
  }

  /** Two files with one modification time: the second lookup still answers from the first. */
  lemma StaleAnswer(site: Site, c: string, s: string, f: File, g: File)
    requires f.mtime == g.mtime
    ensures var disk := map[site.Path(c) := f];
            var events := [Ask(c, s), Write(site.Path(c), g), Ask(c, s)];
            && CachedAnswers(site, NEW_HANDLE, disk, events) == [site.Text(c, f.doc, s), site.Text(c, f.doc, s)]
            && FreshAnswers(site, disk, events) == [site.Text(c, f.doc, s), site.Text(c, g.doc, s)]
  {
    hide Site.Text, Site.Path;
    var disk := map[site.Path(c) := f];
    var events := [Ask(c, s), Write(site.Path(c), g), Ask(c, s)];
    assert events[..3] == events && events[..0] == [];
    FreshStep(site, disk, events, 0);
    FreshStep(site, disk, events, 1);
    FreshStep(site, disk, events, 2);
    RunStep(site, NEW_HANDLE, disk, events, 0);
    RunStep(site, NEW_HANDLE, disk, events, 1);
    RunStep(site, NEW_HANDLE, disk, events, 2);
  }

  lemma FreshStep(site: Site, disk: Disk, events: seq<Event>, i: nat)
    requires i < |events|
    ensures FreshAnswers(site, disk, events[..i + 1])
         == FreshAnswers(site, disk, events[..i]) + FreshAnswer(site, DiskAfterAll(disk, events[..i]), events[i])
  {
    hide FreshAnswer;
    assert events[..i + 1][..i] == events[..i];
  }

  /** The cache never shows if and only if modification times determine the section texts. */
  lemma TransparentExactly(site: Site, may: Files)
    ensures Transparent(site, may) <==> TimesTellTexts(site, may)
  {
    hide CachedAnswers, FreshAnswers, Site.Text, Site.Path;
    if TimesTellTexts(site, may) {
      forall disk, events | DiskMay(disk, may) && EventsMay(events, may)
        ensures CachedAnswers(site, NEW_HANDLE, disk, events) == FreshAnswers(site, disk, events)
      {
        SameAnswers(site, may, disk, events);
      }
    }
    if Transparent(site, may) {
      forall c, s, f, g | may(site.Path(c), f) && may(site.Path(c), g) && f.mtime == g.mtime
        ensures site.Text(c, f.doc, s) == site.Text(c, g.doc, s)
      {
        StaleAnswer(site, c, s, f, g);
        StaleIsPossible(site, may, c, s, f, g);
      }
    }
  }

  lemma StaleIsPossible(site: Site, may: Files, c: string, s: string, f: File, g: File)
    requires may(site.Path(c), f) && may(site.Path(c), g)
    ensures DiskMay(map[site.Path(c) := f], may)
    ensures EventsMay([Ask(c, s), Write(site.Path(c), g), Ask(c, s)], may)
  {
  }

  // The library handle.

  class Libcrange {
    const site: Site
    var wantCaching: bool
    var cache: Option<map<string, Entry>>
    /** The files that the entries were read from. */
    ghost var seen: Option<Disk>

    constructor (site: Site)
      ensures this.site == site && Valid() && State() == NEW_HANDLE
    {
      this.site := site;
      wantCaching := true;
      cache := None;
      seen := None;
    }

    /** Entries hold the times and the sections of the files they were read from. */
    ghost predicate Valid()
      reads this
    {
      && (cache.Some? <==> seen.Some?)
      && (cache.Some? ==> Mirrors(cache.value, seen.value))
    }

    ghost predicate Mirrors(entries: map<string, Entry>, files: Disk) {
      && entries.Keys == files.Keys
      && (forall p :: p in entries ==> entries[p].mtime == files[p].mtime)
      && (forall c :: site.Path(c) in entries ==>
            entries[site.Path(c)].sections == site.keys(c, files[site.Path(c)].doc))
    }

    ghost function State(): Handle
      reads this
    {
      Handle(wantCaching, seen)
    }

    /** The lookup of _expand_cluster. */
    method Lookup(disk: Disk, cluster: string, section: string) returns (res: Option<string>)
      requires Valid()
      modifies this
      ensures Valid() && State() == AfterAsk(old(State()), disk, site.Path(cluster))
      ensures res == CachedText(site, old(State()), disk, cluster, section)
    {
      hide Site.Path, Mirrors;
      EmptyMirrors();
      var entries := if cache.Some? then cache.value else map[];
      ghost var files: Disk := if seen.Some? then seen.value else map[];
      if cache.None? && wantCaching {
        cache, seen := Some(entries), Some(files);
      }
      var path := site.Path(cluster);
      if path !in disk {
        return None;
      }
      var file := disk[path];
      ghost var read := file;
      var e: Entry;
      MirrorsAt(entries, files, cluster);
      if path !in entries || entries[path].mtime != file.mtime {
        e := Entry(file.mtime, site.keys(cluster, file.doc));
      } else {
        e := entries[path];
        read := files[path];
      }
      MirrorsPut(entries, files, cluster, e, read);
      if cache.Some? {
        cache := Some(entries[path := e]);
        seen := Some(files[path := read]);
      }
      res := if section in e.sections then e.sections[section] else None;
      if res.None? && site.isCluster(section) {
        res := Some("");
      }
    }

    lemma EmptyMirrors()
      ensures Mirrors(map[], map[])
    {
    }

    lemma MirrorsAt(entries: map<string, Entry>, files: Disk, cluster: string)
      requires Mirrors(entries, files)
      ensures var path := site.Path(cluster);
              && (path in entries <==> path in files)
              && (path in entries ==>
                    entries[path].mtime == files[path].mtime && entries[path].sections == site.keys(cluster, files[path].doc))
    {
    }

    lemma MirrorsPut(entries: map<string, Entry>, files: Disk, cluster: string, e: Entry, file: File)
      requires Mirrors(entries, files) && e == Entry(file.mtime, site.keys(cluster, file.doc))
      ensures Mirrors(entries[site.Path(cluster) := e], files[site.Path(cluster) := file])
    {
      var entries', files' := entries[site.Path(cluster) := e], files[site.Path(cluster) := file];
      assert entries'.Keys == entries.Keys + {site.Path(cluster)};
      assert files'.Keys == files.Keys + {site.Path(cluster)};
      forall c | site.Path(c) in entries'
        ensures entries'[site.Path(c)].sections == site.keys(c, files'[site.Path(c)].doc)
      {
        if site.Path(c) == site.Path(cluster) {
          PathInjective(site.yamlPath, c, cluster);
        }
      }
    }

    /** One event; disk is the state of the files before it. */
    method Step(disk: Disk, e: Event) returns (answer: seq<Option<string>>)
      requires Valid()
      modifies this
      ensures Valid() && State() == HandleAfter(site, old(State()), disk, e)
      ensures answer == CachedAnswer(site, old(State()), disk, e)
    {
      hide Site.Path, AfterAsk, CachedText, Mirrors;
      answer := [];
      match e
      case Write(_, _) =>
      case Delete(_) =>
      case WantCaching(on) => wantCaching := on;
      case ClearCaches => cache, seen := None, None;
      case Ask(c, s) =>
        var text := Lookup(disk, c, s);
        answer := [text];
    }

    /** A run of events. Its answers are those of reading the files anew whenever the files that
        may ever stand at a path are told apart, as to their section texts, by their times. */
    method Serve(disk: Disk, events: seq<Event>, ghost may: Files) returns (answers: seq<Option<string>>)
      requires Valid()
      modifies this
      ensures Valid() && State() == HandleAfterAll(site, old(State()), disk, events)
      ensures answers == CachedAnswers(site, old(State()), disk, events)
      ensures old(State()) == NEW_HANDLE && TimesTellTexts(site, may) && DiskMay(disk, may) && EventsMay(events, may) ==>
                answers == FreshAnswers(site, disk, events)
    {
      hide Valid, HandleAfter, CachedAnswer, State, TimesTellTexts, DiskMay, EventsMay;
      ghost var h := State();
      answers := [];
      var now := disk;
      var i := 0;
      assert events[..0] == [];
      while i < |events|
        invariant i <= |events| && Valid() && State() == HandleAfterAll(site, h, disk, events[..i])
        invariant now == DiskAfterAll(disk, events[..i])
        invariant answers == CachedAnswers(site, h, disk, events[..i])
      {
        RunStep(site, h, disk, events, i);
        var answer := Step(now, events[i]);
        answers := answers + answer;
        now := DiskAfter(now, events[i]);
        i := i + 1;
      }
      assert events[..i] == events;
      if h == NEW_HANDLE && TimesTellTexts(site, may) && DiskMay(disk, may) && EventsMay(events, may) {
        SameAnswers(site, may, disk, events);
      }
    }
  }
}
