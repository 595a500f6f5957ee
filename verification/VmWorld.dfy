/** Any number of address spaces on one free list: what their processes do interleaves in any order. */
module VmWorld {
  import opened Kalloc
  import opened Steps
  import opened VmKernel
  import opened VmSpec
  import opened VmSteps

  /** What an address space has. */
  datatype Holding = Holding(tabs: map<nat, Use>, users: map<nat, nat>) {
    function Own(): set<nat> {
      tabs.Keys + users.Keys
    }
  }

  /** The memory, and the address spaces by their directories. */
  datatype World = World(m: Mem, spaces: map<nat, Holding>)

  /** setupkvm and copyuvm, or a failure of one of them; what happens to an address space; freevm. */
  datatype Event =
    | Setup(d: nat, data: nat)
    | Fork(parent: nat, d: nat, data: nat, q: nat)
    | Fails
    | Acts(d: nat, e: Happening)
    | Dies(d: nat)

  ghost predicate Next(lo: nat, e: Event, w: World, w': World) {
    match e
    case Setup(d, data) =>
      && DataOk(data) && d in w'.spaces && w'.spaces == w.spaces[d := w'.spaces[d]] && w'.spaces[d].users == map[]
      && Kernel(lo, w.m, w'.m, d, w'.spaces[d].tabs, data, 4)
    case Fork(p, d, data, q) =>
      && DataOk(data) && p in w.spaces && d in w'.spaces && w'.spaces == w.spaces[d := w'.spaces[d]]
      && Copied(lo, w.m, w'.m, p, d, w'.spaces[d].tabs, w'.spaces[d].users, data, q, {})
    case Fails => w'.spaces == w.spaces && Kept(w.m, {}, w'.m, {})
    case Acts(d, h) =>
      && d in w.spaces && d in w'.spaces && w'.spaces == w.spaces[d := w'.spaces[d]]
      && Happens(lo, d, h, At(w, d), At(w', d))
    case Dies(d) =>
      d in w.spaces && w'.spaces == w.spaces - {d} && Kept(w.m, w.spaces[d].Own(), w'.m, {})
  }

  function At(w: World, d: nat): Moment
    requires d in w.spaces
  {
    Moment(w.m, w.spaces[d].tabs, w.spaces[d].users)
  }

  /** w comes from m, where there is no address space yet, by the events es. */
  ghost predicate Run(lo: nat, m: Mem, es: seq<Event>, w: World)
    decreases |es|
  {
    if es == [] then w == World(m, map[])
    else exists w0 :: Run(lo, m, Front(es), w0) && Next(lo, Last(es), w0, w)
  }

  // ---------- invariant

  /** The frames of all address spaces. */
  ghost function AllOwn(spaces: map<nat, Holding>): set<nat> {
    set d, f | d in spaces && f in spaces[d].Own() :: f
  }

  /** No frame is in two address spaces. */
  ghost predicate Separate(spaces: map<nat, Holding>) {
    forall d, e :: d in spaces && e in spaces && d != e ==> spaces[d].Own() !! spaces[e].Own()
  }

  ghost predicate Sound(lo: nat, w: World) {
    forall d :: d in w.spaces ==> SoundAt(lo, w, d)
  }

  ghost predicate SoundAt(lo: nat, w: World, d: nat)
    requires d in w.spaces
  {
    Space(lo, w.m, d, w.spaces[d].tabs, w.spaces[d].users)
  }

  ghost predicate Inv(lo: nat, m: Mem, w: World) {
    Sound(lo, w) && Separate(w.spaces) && Kept(m, {}, w.m, AllOwn(w.spaces))
  }

  /** An address space minds no change outside its frames. */
  lemma Beside(lo: nat, m: Mem, own: set<nat>, m': Mem, own': set<nat>, d: nat, h: Holding)
    requires Kept(m, own, m', own') && Space(lo, m, d, h.tabs, h.users) && h.Own() !! own
    ensures Space(lo, m', d, h.tabs, h.users) && h.Own() !! own' && SameOn(m.pages, m'.pages, h.Own())
    ensures SameMap(m.pages, m'.pages, d, 0, NPAGES)
  {
    hide SlotOk, UseOk, PageOk, FrameOk, Pte;
    forall f | f in h.Own()
      ensures f !in m'.free && f !in own' && f !in m.free
    {
      assert f !in Frames(m.free) + own;
      assert f !in Frames(m'.free) + own';
    }
    TablesFrame(lo, m.pages, m'.pages, d, h.tabs);
    UsersFrame(lo, m.pages, m'.pages, d, h.users);
  }

  /** The one address space that a step is about, and its frames before and after; {} if it has none. */
  ghost function Of(spaces: map<nat, Holding>, d: nat): set<nat> {
    if d in spaces then spaces[d].Own() else {}
  }

  /** A step changes the frames of d alone. */
  ghost predicate Local(lo: nat, w: World, w': World, d: nat) {
    && Kept(w.m, Of(w.spaces, d), w'.m, Of(w'.spaces, d))
    && (forall e :: e != d ==> (e in w'.spaces <==> e in w.spaces))
    && (forall e :: e != d && e in w.spaces && e in w'.spaces ==> w'.spaces[e] == w.spaces[e])
    && (d in w'.spaces ==> SoundAt(lo, w', d))
  }

  ghost function About(e: Event): nat {
    match e
    case Setup(d, _) => d
    case Fork(_, d, _, _) => d
    case Fails => 0
    case Acts(d, _) => d
    case Dies(d) => d
  }

  lemma Directories(lo: nat, w: World, d: nat)
    requires Sound(lo, w) && d in w.spaces
    ensures d in w.spaces[d].Own() && d !in w.m.free && 0 < lo <= d
  {
    assert SoundAt(lo, w, d);
    assert UseOk(lo, w.m.pages, d, w.spaces[d].tabs[d], d);
  }

  /** The directory of a new address space is of none that there is. */
  lemma NewDirectory(lo: nat, w: World, d: nat, m': Mem, own: set<nat>)
    requires Sound(lo, w) && Kept(w.m, {}, m', own) && d in own
    ensures d !in w.spaces
  {
    assert d in Frames(w.m.free) + {};
    if d in w.spaces {
      Directories(lo, w, d);
    }
  }

  lemma StepIsLocal(lo: nat, e: Event, w: World, w': World)
    requires Sound(lo, w) && Next(lo, e, w, w')
    ensures Local(lo, w, w', About(e))
  {
    hide Space, Kept, Kernel, Happens;
    match e
    case Setup(d, data) => SetupIsLocal(lo, d, data, w, w');
    case Fork(p, d, data, q) => ForkIsLocal(lo, p, d, data, q, w, w');
    case Fails =>
      if 0 in w.spaces {
        Directories(lo, w, 0);
      }
    case Acts(d, h) =>
      assert SoundAt(lo, w, d);
      HappeningKeeps(lo, d, h, At(w, d), At(w', d));
    case Dies(d) =>
  }

  lemma SetupIsLocal(lo: nat, d: nat, data: nat, w: World, w': World)
    requires Sound(lo, w) && Next(lo, Setup(d, data), w, w')
    ensures Local(lo, w, w', d)
  {
    var h := w'.spaces[d];
    NewSpace(lo, w.m, w'.m, d, h.tabs, data);
    hide Space, Kernel;
    assert d in h.tabs;
    NewDirectory(lo, w, d, w'.m, h.tabs.Keys);
    assert h.Own() == h.tabs.Keys;
  }

  lemma ForkIsLocal(lo: nat, p: nat, d: nat, data: nat, q: nat, w: World, w': World)
    requires Sound(lo, w) && Next(lo, Fork(p, d, data, q), w, w')
    ensures Local(lo, w, w', d)
  {
    hide Tables, Users, CopiedPage, Pte, KernelPte;
    var h := w'.spaces[d];
    assert h.Own() + {} == h.Own();
    assert d in h.tabs by {
      TablesHave(lo, w'.m.pages, d, h.tabs);
    }
    NewDirectory(lo, w, d, w'.m, h.Own());
  }

  lemma TablesHave(lo: nat, pages: seq<Page>, d: nat, tabs: map<nat, Use>)
    requires Tables(lo, pages, d, tabs)
    ensures d in tabs
  {
  }

  /** A step leaves every other address space as it is: its mappings, and the contents of its frames. */
  lemma Isolation(lo: nat, m: Mem, e: Event, w: World, w': World, d: nat)
    requires Inv(lo, m, w) && Next(lo, e, w, w') && d in w.spaces && d != About(e)
    ensures d in w'.spaces && w'.spaces[d] == w.spaces[d] && SoundAt(lo, w', d)
    ensures w.spaces[d].Own() !! Of(w'.spaces, About(e))
    ensures SameOn(w.m.pages, w'.m.pages, w.spaces[d].Own()) && SameMap(w.m.pages, w'.m.pages, d, 0, NPAGES)
  {
    hide Space, Kept, Next, SameOn, SameMap;
    StepIsLocal(lo, e, w, w');
    assert SoundAt(lo, w, d);
    Beside(lo, w.m, Of(w.spaces, About(e)), w'.m, Of(w'.spaces, About(e)), d, w.spaces[d]);
  }

  /** The frames of the others. */
  ghost function Rest(spaces: map<nat, Holding>, d: nat): set<nat> {
    AllOwn(spaces - {d})
  }

  lemma AllIsOfAndRest(spaces: map<nat, Holding>, d: nat)
    ensures AllOwn(spaces) == Of(spaces, d) + Rest(spaces, d)
  {
    forall f
      ensures f in AllOwn(spaces) <==> f in Of(spaces, d) || f in Rest(spaces, d)
    {
      if f in Rest(spaces, d) {
        var e :| e in spaces - {d} && f in (spaces - {d})[e].Own();
        assert e in spaces && f in spaces[e].Own();
      }
      if e :| e in spaces && f in spaces[e].Own() {
        assert e != d ==> e in spaces - {d} && f in (spaces - {d})[e].Own();
      }
    }
  }

  lemma RestApart(lo: nat, w: World, d: nat)
    requires Sound(lo, w) && Separate(w.spaces)
    ensures Rest(w.spaces, d) !! Of(w.spaces, d) && Apart(w.m.free, Rest(w.spaces, d))
  {
    hide Tables, Users;
    forall f | f in Rest(w.spaces, d)
      ensures f !in Of(w.spaces, d) && f !in w.m.free
    {
      var e :| e in w.spaces - {d} && f in (w.spaces - {d})[e].Own();
      assert SoundAt(lo, w, e);
    }
  }

  lemma NextKeeps(lo: nat, m: Mem, e: Event, w: World, w': World)
    requires Inv(lo, m, w) && Next(lo, e, w, w')
    ensures Inv(lo, m, w')
  {
    hide Next, Kept, SoundAt, Of, AllOwn, SameOn, SameMap;
    var d := About(e);
    StepIsLocal(lo, e, w, w');
    forall c | c in w'.spaces
      ensures SoundAt(lo, w', c)
    {
      if c != d {
        Isolation(lo, m, e, w, w', c);
      }
    }
    forall b, c | b in w'.spaces && c in w'.spaces && b != c
      ensures w'.spaces[b].Own() !! w'.spaces[c].Own()
    {
      if b != d {
        Isolation(lo, m, e, w, w', b);
      }
      if c != d {
        Isolation(lo, m, e, w, w', c);
      }
      OfIs(w'.spaces, d);
    }
    AllIsOfAndRest(w.spaces, d);
    AllIsOfAndRest(w'.spaces, d);
    assert w'.spaces - {d} == w.spaces - {d};
    RestApart(lo, w, d);
    KeptBeside(w.m, Of(w.spaces, d), w'.m, Of(w'.spaces, d), Rest(w.spaces, d));
    KeptTrans(m, {}, w.m, AllOwn(w.spaces), w'.m, AllOwn(w'.spaces));
  }

  lemma OfIs(spaces: map<nat, Holding>, d: nat)
    ensures d in spaces ==> Of(spaces, d) == spaces[d].Own()
  {
  }

  lemma {:induction false} RunKeeps(lo: nat, m: Mem, es: seq<Event>, w: World)
    requires Run(lo, m, es, w)
    ensures Inv(lo, m, w)
    decreases |es|
  {
    hide Next, Kept, Sound;
    if es == [] {
      StartOk(lo, m);
    } else {
      var w0 :| Run(lo, m, Front(es), w0) && Next(lo, Last(es), w0, w);
      RunKeeps(lo, m, Front(es), w0);
      NextKeeps(lo, m, Last(es), w0, w);
    }
  }

  lemma StartOk(lo: nat, m: Mem)
    ensures Inv(lo, m, World(m, map[]))
  {
    assert AllOwn(map[]) == {};
  }

  /** In every run the free frames and those of all address spaces are the frames that were free at
      the start, no frame is in two places, and no other page is ever written. */
  lemma Conservation(lo: nat, m: Mem, es: seq<Event>, w: World)
    requires Run(lo, m, es, w)
    ensures Frames(w.m.free) + AllOwn(w.spaces) == Frames(m.free) && Frames(w.m.free) !! AllOwn(w.spaces)
    ensures Separate(w.spaces) && Sound(lo, w)
    ensures |w.m.pages| == |m.pages| && forall f: nat :: f < |m.pages| && f !in m.free ==> w.m.pages[f] == m.pages[f]
    ensures w.spaces == map[] ==> Frames(w.m.free) == Frames(m.free)
  {
    RunKeeps(lo, m, es, w);
    hide Run, Sound;
    assert Frames(m.free) + {} == Frames(m.free);
    assert w.spaces == map[] ==> AllOwn(w.spaces) == {};
  }
}
