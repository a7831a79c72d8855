/** `rspbt::run`: the cache of translations, overlay swaps and the fallback, proved to end as
    the interpreter ends. */
module RspBt {
  import opened Collections
  import opened Bits
  import opened RspState
  import opened RspControl
  import opened RspDecode
  import opened BlockGraph
  import opened Simulation
  import opened RspCompile
  import opened RspExec
  import opened RspEmit
  import opened RspCore
  import opened RspRelabel

  /* ---- the cache ---- */

  /** `image_t`: a translation, the image it was made from, and everything a jr may land on. */
  datatype ImageT = ImageT(fn: Graph, imem: Image, roots: set<Addr>, stale: bool)

  const NO_FUNCTION := Graph(map[], map[])

  function Xor64(a: nat, b: nat): nat { Bitwise(XorOp, a, b, 64) }

  function HashStep(h: nat, x: Byte): nat { Xor64(h, x) * 0x100_0000_01b3 % 0x1_0000_0000_0000_0000 }

  /** FNV-1a over the first `n` bytes. */
  function HashOf(im: Image, n: nat): nat
    requires n <= |im|
    decreases n, im
  {
    if n == 0 then 0xcbf2_9ce4_8422_2325 else HashStep(HashOf(im, n - 1), im[n - 1])
  }

  function Fnv1a64(im: Image): nat { HashOf(im, |im|) }

  /** What is about to be called is the translation of the image it is filed with. */
  predicate ImageOk(i: ImageT) {
    !i.stale ==> Translates(i.fn, i.imem) && i.fn.entry.Keys == i.roots
  }

  predicate Filed(images: map<nat, ImageT>, h: nat)
    requires h in images
  {
    Fnv1a64(images[h].imem) == h && ImageOk(images[h])
  }

  ghost predicate CacheOk(images: map<nat, ImageT>, last: Option<nat>) {
    && (last.Some? ==> last.value in images)
    && forall h {:trigger Filed(images, h)} :: h in images ==> Filed(images, h)
  }

  /** Images of `world` that collide under the hash differ in data at most, and the cache holds only
      those images. */
  ghost predicate NoHarm(images: map<nat, ImageT>, world: iset<Image>) {
    && (forall a, b :: a in world && b in world && Fnv1a64(a) == Fnv1a64(b) ==> SameCode(a, b))
    && (forall h :: h in images ==> images[h].imem in world)
  }

  /** The entry a lookup of `im` under `h` selects: made if it is missing, and in any case
      relabelled with `im`. */
  function Selected(images: map<nat, ImageT>, im: Image, h: nat): ImageT {
    if h in images then images[h].(imem := im) else ImageT(NO_FUNCTION, im, {}, true)
  }

  lemma SelectedOk(images: map<nat, ImageT>, last: Option<nat>, im: Image, world: iset<Image>)
    requires CacheOk(images, last) && NoHarm(images, world) && im in world
    ensures var h := Fnv1a64(im);
            var now := images[h := Selected(images, im, h)];
            CacheOk(now, Some(h)) && NoHarm(now, world) && now[h].imem == im
  {
    var h := Fnv1a64(im);
    var now := images[h := Selected(images, im, h)];
    forall k | k in now ensures Filed(now, k) {
      if k in images {
        assert Filed(images, k);
        SameCodeExact(images[k].imem, im);
      }
    }
  }

  lemma UpdateOk(images: map<nat, ImageT>, last: Option<nat>, h: nat, i: ImageT, world: iset<Image>)
    requires CacheOk(images, last) && NoHarm(images, world) && h in images
    requires i.imem == images[h].imem && ImageOk(i)
    ensures CacheOk(images[h := i], last) && NoHarm(images[h := i], world)
  {
    var now := images[h := i];
    assert Filed(images, h);
    forall k | k in now ensures Filed(now, k) {
      if k != h {
        assert Filed(images, k);
      }
    }
  }

  /* ---- what a run may rely on and what it promises ---- */

  ghost predicate SeenIn(world: iset<Image>, n: nat, c: Cfg) {
    var c' := Steps(Exec, n, c);
    c'.Running? ==> ImageOf(c'.s) in world
  }

  /** Every image the interpreter reaches from `c` is of `world`. */
  ghost predicate StaysIn(world: iset<Image>, c: Cfg) {
    forall n: nat {:trigger SeenIn(world, n, c)} :: SeenIn(world, n, c)
  }

  /** The interpreter, started in `c`, stops after some number of steps in `end`. */
  ghost predicate StopsIn(c: Cfg, end: Cfg) {
    exists n: nat :: Steps(Exec, n, c) == end && !end.Running?
  }

  /** What `rspbt::run` promises: the state the interpreter halts in, its death, or, when the
      budget ran out, that the interpreter is still running after `fuel` instructions too. */
  ghost predicate EndsLikeInterpreter(c: Cfg, fuel: nat, out: RunResult, s: Rsp) {
    match out
    case Finished => StopsIn(c, Halted(s))
    case Fatal => StopsIn(c, Died)
    case OutOfSteps => Steps(Exec, fuel, c).Running?
  }

  /** Whenever the interpreter stops, a run with that budget stops, and in the same state. */
  lemma SameAsInterpreter(c: Cfg, n: nat, fuel: nat, out: RunResult, s: Rsp)
    requires !Steps(Exec, n, c).Running? && n <= fuel && EndsLikeInterpreter(c, fuel, out, s)
    ensures Steps(Exec, n, c).Halted? ==> out.Finished? && Steps(Exec, n, c) == Halted(s)
    ensures Steps(Exec, n, c).Died? ==> out.Fatal?
  {
    if out.OutOfSteps? {
      RunsEarlier(Exec, n, fuel, c);
    } else {
      var m: nat :| Steps(Exec, m, c) == (if out.Finished? then Halted(s) else Died);
      OneResult(Exec, m, n, c);
    }
  }

  /** Hints, observed roots, the cache and its history affect speed only: two runs of the
      same task that stopped, stopped alike. */
  lemma SpeedOnly(c: Cfg, fuel: nat, out: RunResult, s: Rsp, fuel': nat, out': RunResult, s': Rsp)
    requires EndsLikeInterpreter(c, fuel, out, s) && EndsLikeInterpreter(c, fuel', out', s')
    requires !out.OutOfSteps? && !out'.OutOfSteps?
    ensures out == out' && (out.Finished? ==> s == s')
  {
    var n: nat :| Steps(Exec, n, c) == (if out.Finished? then Halted(s) else Died);
    var m: nat :| Steps(Exec, m, c) == (if out'.Finished? then Halted(s') else Died);
    OneResult(Exec, n, m, c);
  }

  /* ---- the rounds of the loop ---- */

  /** Where the loop stands: the interpreter has taken `n` steps and is about to execute `cur`. */
  ghost predicate OnTrack(c0: Cfg, n: nat, cur: Addr, s: Rsp) {
    Steps(Exec, n, c0) == At(cur, s) && s.r[0] == 0 && !s.halted
  }

  ghost predicate TaskOk(c0: Cfg, world: iset<Image>) {
    c0.Running? && !c0.s.halted && SwapsSafely(Exec, c0) && StaysIn(world, c0)
  }

  lemma {:induction false} HaltedIsLast(n: nat, c: Cfg)
    requires c.Running? && !c.s.halted && Steps(Exec, n, c).Running?
    ensures !Steps(Exec, n, c).s.halted
  {
    if n > 0 {
      var w, c1 := WordAt(ImageOf(c.s), c.pc), Step(Exec, c);
      NotHaltedBy(w, c);
      if c1.Running? {
        HaltedIsLast(n - 1, c1);
      } else {
        StopsForGood(Exec, n - 1, c1);
      }
    }
  }

  lemma NotHaltedBy(w: Word, c: Cfg)
    requires c.Running? && !c.s.halted && w == WordAt(ImageOf(c.s), c.pc)
    ensures Step(Exec, c).Running? ==> !Step(Exec, c).s.halted
  {
    PlainKeepsImem(w, c.s);
  }

  /** What exit `x` of a call from state `s`, made after n steps, says about the interpreter
      after m. */
  ghost predicate CallEnds(c0: Cfg, n: nat, m: nat, s: Rsp, fuel: nat, x: Exit) {
    match x
    case Go(_, _) => m >= n + fuel && Steps(Exec, m, c0).Running?
    case Out(pc, f) => m >= n && OnTrack(c0, m, pc, Sync(f)) && (f.c.gen != s.gen ==> m > n)
    case Done(f) => Steps(Exec, m, c0) == Halted(Sync(f))
    case Dead => Steps(Exec, m, c0) == Died
  }

  /** One call of a translation of the current image, and what the loop may conclude from it. */
  lemma RoundSim(c0: Cfg, world: iset<Image>, n: nat, cur: Addr, s: Rsp, g: Graph, fuel: nat) returns (m: nat)
    requires TaskOk(c0, world) && OnTrack(c0, n, cur, s) && Translates(g, ImageOf(s))
    ensures CallEnds(c0, n, m, s, fuel, CallText(Emit, g, s, Bytes(cur), fuel))
  {
    EmitRefinesExec();
    m := CallFrom(Exec, Emit, c0, n, cur, s, g, fuel);
    if CallText(Emit, g, s, Bytes(cur), fuel).Out? {
      HaltedIsLast(m, c0);
    }
  }

  /** The same of any refinement, but for the halted bit. */
  ghost predicate CallLands(ex: Plain, c0: Cfg, n: nat, m: nat, s: Rsp, fuel: nat, x: Exit) {
    match x
    case Go(_, _) => m >= n + fuel && Steps(ex, m, c0).Running?
    case Out(pc, f) =>
      m >= n && Steps(ex, m, c0) == At(pc, Sync(f)) && Sync(f).r[0] == 0 && (f.c.gen != s.gen ==> m > n)
    case Done(f) => Steps(ex, m, c0) == Halted(Sync(f))
    case Dead => Steps(ex, m, c0) == Died
  }

  lemma CallFrom(ex: Plain, tx: PlainText, c0: Cfg, n: nat, cur: Addr, s: Rsp, g: Graph, fuel: nat) returns (m: nat)
    requires Refines(ex, tx) && SwapsSafely(ex, c0) && Translates(g, ImageOf(s))
    requires Steps(ex, n, c0) == At(cur, s) && s.r[0] == 0
    ensures CallLands(ex, c0, n, m, s, fuel, CallText(tx, g, s, Bytes(cur), fuel))
  {
    SafeLater(ex, n, c0);
    assert MaskPc(Bytes(cur)) == cur;
    var k := CallSim(ex, tx, ImageOf(s), g, s, Bytes(cur), fuel);
    m := n + k;
    StepsAdd(ex, n, k, c0);
  }

  /** The fallback: the interpreter from `pc` ends the run. */
  lemma FallbackEnds(c0: Cfg, n: nat, pc: Addr, s: Rsp, left: nat, fuel: nat, out: RunResult, s': Rsp)
    requires OnTrack(c0, n, pc, s) && n + left >= fuel && RunEnds(s, Bytes(pc), left, out, s')
    ensures EndsLikeInterpreter(c0, fuel, out, s')
  {
    StartsAt(pc, s);
    GoesOnFrom(Exec, c0, n, At(pc, s), left, fuel);
  }

  lemma StartsAt(pc: Addr, s: Rsp)
    requires !s.halted
    ensures Start(Bytes(pc), s) == At(pc, s)
  {
    assert s == s.(halted := false);
  }

  lemma GoesOnFrom(ex: Plain, c0: Cfg, n: nat, c: Cfg, left: nat, fuel: nat)
    requires Steps(ex, n, c0) == c && n + left >= fuel
    ensures Steps(ex, n + left, c0) == Steps(ex, left, c)
    ensures Steps(ex, left, c).Running? ==> Steps(ex, fuel, c0).Running?
  {
    StepsAdd(ex, n, left, c0);
    if Steps(ex, left, c).Running? {
      RunsEarlier(ex, fuel, n + left, c0);
    }
  }

  /* ---- rspbt ---- */

  /** The addresses the hints ask for. */
  function HintRoots(hints: seq<Word>): set<Addr> {
    if hints == [] then {} else HintRoots(hints[..|hints| - 1]) + {MaskPc(hints[|hints| - 1])}
  }

  class Rspbt {
    var images: map<nat, ImageT>
    var last: Option<nat>

    constructor ()
      ensures images == map[] && last == None
    {
      images, last := map[], None;
    }

    ghost predicate Valid(world: iset<Image>)
      reads this
    {
      CacheOk(images, last) && NoHarm(images, world)
    }

    method Hash(im: Image) returns (h: nat)
      ensures h == Fnv1a64(im)
    {
      h := 0xcbf2_9ce4_8422_2325;
      for i := 0 to |im|
        invariant h == HashOf(im, i)
      {
        h := HashStep(h, im[i]);
      }
    }

    /** The image of current instruction memory: the last one if it still matches byte for
        byte, otherwise the one filed under the hash. */
    method Select(im: Image, ghost world: iset<Image>) returns (h: nat)
      requires Valid(world) && im in world
      modifies this
      ensures Valid(world) && last == Some(h) && h in images && images[h].imem == im
    {
      if last.Some? && images[last.value].imem == im {
        return last.value;
      }
      SelectedOk(images, last, im, world);
      h := Hash(im);
      images := images[h := Selected(images, im, h)];
      last := Some(h);
    }

    method AddRoot(h: nat, a: Addr, ghost world: iset<Image>)
      requires Valid(world) && h in images
      modifies this`images
      ensures Valid(world) && h in images && images[h].imem == old(images[h].imem)
      ensures images[h].roots == old(images[h].roots) + {a}
      ensures a !in old(images[h].roots) ==> images[h].stale
      ensures a in old(images[h].roots) ==> images == old(images)
    {
      var img := images[h];
      if a !in img.roots {
        UpdateOk(images, last, h, img.(roots := img.roots + {a}, stale := true), world);
        images := images[h := img.(roots := img.roots + {a}, stale := true)];
      } else {
        assert img.roots == img.roots + {a};
      }
    }

    method AddHints(h: nat, hints: seq<Word>, ghost world: iset<Image>)
      requires Valid(world) && h in images
      modifies this`images
      ensures Valid(world) && h in images && images[h].imem == old(images[h].imem)
      ensures images[h].roots == old(images[h].roots) + HintRoots(hints)
    {
      for i := 0 to |hints|
        invariant Valid(world) && h in images && images[h].imem == old(images[h].imem)
        invariant images[h].roots == old(images[h].roots) + HintRoots(hints[..i])
      {
        assert hints[..i + 1][..i] == hints[..i];
        AddRoot(h, MaskPc(hints[i]), world);
      }
      assert hints[..|hints|] == hints;
    }

    /** Compiles the image if its roots changed since it was last compiled.  Roots that are
        not code are dropped, no others. */
    method Refresh(h: nat, ghost world: iset<Image>)
      requires Valid(world) && h in images
      modifies this`images
      ensures Valid(world) && h in images && images[h].imem == old(images[h].imem)
      ensures !images[h].stale && Translates(images[h].fn, images[h].imem) && images[h].fn.entry.Keys == images[h].roots
      ensures forall r :: r in old(images[h].roots) && Translatable(images[h].imem, r) ==> r in images[h].roots
    {
      var img := images[h];
      assert Filed(images, h);
      if img.stale {
        var g, roots, _ := Compile(img.imem, img.roots);
        assert g.entry.Keys == roots;
        UpdateOk(images, last, h, ImageT(g, img.imem, roots, false), world);
        images := images[h := ImageT(g, img.imem, roots, false)];
      }
    }

    /** Everything before the call: the translation of `im`, which enters directly at `cur`
        and at every hint that is code. */
    method Prepare(im: Image, cur: Addr, hints: seq<Word>, ghost world: iset<Image>) returns (h: nat)
      requires Valid(world) && im in world
      modifies this
      ensures Valid(world) && last == Some(h) && h in images && !images[h].stale
      ensures Translates(images[h].fn, im)
      ensures forall a :: (a == cur || a in HintRoots(hints)) && Translatable(im, a) ==> a in images[h].fn.entry
    {
      h := Select(im, world);
      AddRoot(h, cur, world);
      AddHints(h, hints, world);
      Refresh(h, world);
    }

    /** `img.fn(&c, cur)` for at most `fuel` blocks; the exit block stores the locals back. */
    method CallFn(c: RspT, g: Graph, cur: Addr, fuel: nat) returns (x: Exit)
      requires c.Valid()
      modifies c, c.r, c.v, c.acc, c.vcoL, c.vcoH, c.vccL, c.vccH, c.vce, c.mem, c.rdram
      ensures x == CallText(Emit, g, old(c.Snap()), Bytes(cur), fuel)
      ensures !x.Dead? ==> c.Snap() == Sync(x.f)
    {
      x := CallText(Emit, g, c.Snap(), Bytes(cur), fuel);
      if !x.Dead? {
        c.Put(Sync(x.f));
      }
    }

    /** Runs the microcode in `c` from `pc`. */
    method Run(c: RspT, pc: Word, hints: seq<Word>, fuel: nat, ghost world: iset<Image>) returns (out: RunResult)
      requires c.Valid() && Valid(world) && c.r[0] == 0
      requires TaskOk(Start(pc, c.Snap()), world)
      modifies this, c, c.r, c.v, c.acc, c.vcoL, c.vcoH, c.vccL, c.vccH, c.vce, c.mem, c.rdram
      ensures Valid(world)
      ensures EndsLikeInterpreter(Start(pc, old(c.Snap())), fuel, out, c.Snap())
    {
      ghost var c0 := Start(pc, c.Snap());
      c.halted := false;
      var cur: Addr, left: nat := MaskPc(pc), fuel;
      ghost var n: nat := 0;
      assert Steps(Exec, 0, c0) == At(cur, c.Snap());
      while left > 0
        invariant Valid(world) && n + left >= fuel && OnTrack(c0, n, cur, c.Snap())
        decreases left
      {
        var done;
        done, out, cur, left, n := Round(c, cur, hints, left, c0, n, fuel, world);
        if done {
          return;
        }
      }
      RunsEarlier(Exec, fuel, n, c0);
      return OutOfSteps;
    }

    /** One turn of the loop: select, refresh, call; then finish, go round, or fall back. */
    method Round(c: RspT, cur: Addr, hints: seq<Word>, left: nat, ghost c0: Cfg, ghost n: nat, ghost fuel: nat,
                 ghost world: iset<Image>)
        returns (done: bool, out: RunResult, cur': Addr, left': nat, ghost n': nat)
      requires c.Valid() && Valid(world) && TaskOk(c0, world) && left > 0
      requires n + left >= fuel && OnTrack(c0, n, cur, c.Snap())
      modifies this, c, c.r, c.v, c.acc, c.vcoL, c.vcoH, c.vccL, c.vccH, c.vce, c.mem, c.rdram
      ensures Valid(world)
      ensures done ==> EndsLikeInterpreter(c0, fuel, out, c.Snap())
      ensures !done ==> left' < left && n' + left' >= fuel && OnTrack(c0, n', cur', c.Snap())
    {
      done, out, cur', left', n' := true, Finished, cur, left, n;
      assert SeenIn(world, n, c0);
      var h := Prepare(c.mem[IMEM..], cur, hints, world);
      var gen := c.imemGen;
      var x, m := CallTracked(c, images[h].fn, cur, left, c0, n, world);
      match x {
      case Done(f) =>
      case Dead =>
        out := Fatal;
      case Go(_, f) =>
        RunsEarlier(Exec, fuel, m, c0);
        out := OutOfSteps;
      case Out(next, f) =>
        if c.imemGen != gen {
          done, cur', left', n' := false, next, left - 1, m;
        } else {
          AddRoot(h, next, world);
          out := FallBack(c, next, left, c0, m, fuel);
        }
      }
    }

    /** The call, and where it leaves the interpreter: after m steps. */
    method CallTracked(c: RspT, g: Graph, cur: Addr, left: nat, ghost c0: Cfg, ghost n: nat, ghost world: iset<Image>)
        returns (x: Exit, ghost m: nat)
      requires c.Valid() && TaskOk(c0, world) && OnTrack(c0, n, cur, c.Snap()) && Translates(g, ImageOf(c.Snap()))
      modifies c, c.r, c.v, c.acc, c.vcoL, c.vcoH, c.vccL, c.vccH, c.vce, c.mem, c.rdram
      ensures CallEnds(c0, n, m, old(c.Snap()), left, x)
      ensures !x.Dead? ==> c.Snap() == Sync(x.f)
    {
      ghost var s := c.Snap();
      x := CallFn(c, g, cur, left);
      m := RoundSim(c0, world, n, cur, s, g, left);
    }

    /** The rest of the task in the interpreter. */
    method FallBack(c: RspT, next: Addr, left: nat, ghost c0: Cfg, ghost m: nat, ghost fuel: nat)
        returns (out: RunResult)
      requires c.Valid() && OnTrack(c0, m, next, c.Snap()) && m + left >= fuel
      modifies c, c.r, c.v, c.acc, c.vcoL, c.vcoH, c.vccL, c.vccH, c.vce, c.mem, c.rdram
      ensures EndsLikeInterpreter(c0, fuel, out, c.Snap())
    {
      ghost var s := c.Snap();
      out := c.Run(Bytes(next), left);
      FallbackEnds(c0, m, next, s, left, fuel, out, c.Snap());
    }
  }
}
