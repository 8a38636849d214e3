/** The editable-wheel cache of `build_backend.py`, for one cache key.  Each key has its own lock, its own entry
    directory and temporary directories of its own, so processes at work on one key follow one another; a process
    can stop at any step, and other programs may damage or delete what is in the entry. */
module WheelCache {
  import opened Basics
  import opened ByteStrings
  import opened FramedDigests
  import opened InputFingerprints

  type Inputs = seq<Field>
  type Dir = map<string, Bytes>

  const MANIFEST: string := "manifest.json"

  datatype Manifest = Manifest(key: Bytes, fingerprints: map<Bytes, Digest>, filename: string, sha256: Digest)

  /** What the cache is built on: hashing, JSON text of a manifest, the key of some inputs, wheel validation and the
      test that a file name has no directory part.  `key` is the key this entry is for. */
  datatype Env = Env(
    h: Hash, render: Manifest -> Bytes, parse: Bytes -> Option<Manifest>,
    keyOf: Inputs -> Bytes, wheel: Bytes -> bool, local: string -> bool, key: Bytes)

  /** JSON written by `render` is read back as it was. */
  ghost predicate ReadsBack(env: Env) { forall m :: env.parse(env.render(m)) == Some(m) }

  datatype Publication = Publication(inputs: Inputs, name: string, bytes: Bytes)

  datatype Phase =
    | Idle
    | Discarding(inputs: Inputs)
    | Copying(pub: Publication, copied: nat)
    | Writing(pub: Publication, text: Bytes, written: nat)

  /** The entry directory, the temporary directory of the process at work, and what has been published. */
  datatype State = State(entry: Option<Dir>, temp: Dir, phase: Phase, published: set<Publication>)

  const EMPTY := State(None, map[], Idle, {})

  /** `_cached_wheel` */
  function CachedWheel(env: Env, entry: Option<Dir>, inputs: Inputs): Option<(string, Bytes)>
  {
    if entry.None? || MANIFEST !in entry.value then None
    else
      var manifest := env.parse(entry.value[MANIFEST]);
      if manifest.None? then None
      else
        var m := manifest.value;
        if m.key != env.key || env.keyOf(inputs) != env.key || m.fingerprints != Flatten(env.h, inputs, []) then None
        else if !env.local(m.filename) || m.filename !in entry.value then None
        else
          var bytes := entry.value[m.filename];
          if env.h(bytes) != m.sha256 || !env.wheel(bytes) then None else Some((m.filename, bytes))
  }

  /** The manifest of a publication. */
  function TextOf(env: Env, pub: Publication, sha256: Digest): Bytes
  {
    env.render(Manifest(env.key, Flatten(env.h, pub.inputs, []), pub.name, sha256))
  }

  /** What `_publish_cached_wheel` checks before it writes anything; a wheel's name is that of a local file. */
  predicate Publishable(env: Env, pub: Publication)
  {
    env.keyOf(pub.inputs) == env.key && env.wheel(pub.bytes) && pub.name != MANIFEST && env.local(pub.name)
  }

  /** What the process does, one file operation at a time, and what happens to it and to the entry. */
  datatype Event =
    | Begin(inputs: Inputs)
    | RemoveFile(name: string)
    | RemoveDir
    | StartPublish(pub: Publication)
    | Copy(length: nat)
    | StartManifest
    | Write(length: nat)
    | Rename
    | Stop
    | Damage(name: string, bytes: Bytes)
    | Lose(name: string)
    | LoseEntry

  predicate Enabled(env: Env, s: State, e: Event)
  {
    match e
    case Begin(inputs) => s.phase.Idle? && env.keyOf(inputs) == env.key && CachedWheel(env, s.entry, inputs).None?
    case RemoveFile(name) => s.phase.Discarding? && s.entry.Some? && name in s.entry.value
    case RemoveDir => s.phase.Discarding? && s.entry == Some(map[])
    case StartPublish(pub) =>
      && s.phase.Discarding? && s.entry.None?
      && Changed(env.h, s.phase.inputs, pub.inputs) == {} && Publishable(env, pub)
    case Copy(n) => s.phase.Copying? && s.phase.copied <= n <= |s.phase.pub.bytes|
    case StartManifest => s.phase.Copying? && s.phase.copied == |s.phase.pub.bytes| && s.phase.pub.name in s.temp
    case Write(n) => s.phase.Writing? && s.phase.written <= n <= |s.phase.text|
    case Rename => s.phase.Writing? && s.phase.written == |s.phase.text| && (s.entry.None? || s.entry == Some(map[]))
    case Stop => true
    case Damage(name, _) => s.entry.Some? && name != MANIFEST
    case Lose(name) => s.entry.Some? && name in s.entry.value
    case LoseEntry => true
  }

  function Step(env: Env, s: State, e: Event): State
    requires Enabled(env, s, e)
  {
    match e
    case Begin(inputs) => s.(phase := Discarding(inputs))
    case RemoveFile(name) => s.(entry := Some(s.entry.value - {name}))
    case RemoveDir => s.(entry := None)
    case StartPublish(pub) => s.(phase := Copying(pub, 0), temp := map[])
    case Copy(n) => s.(phase := s.phase.(copied := n), temp := s.temp[s.phase.pub.name := s.phase.pub.bytes[..n]])
    case StartManifest =>
      var pub := s.phase.pub;
      s.(phase := Writing(pub, TextOf(env, pub, env.h(s.temp[pub.name])), 0), temp := s.temp[MANIFEST := []])
    case Write(n) => s.(phase := s.phase.(written := n), temp := s.temp[MANIFEST := s.phase.text[..n]])
    case Rename => s.(phase := Idle, entry := Some(s.temp), temp := map[], published := s.published + {s.phase.pub})
    case Stop => s.(phase := Idle, temp := map[])
    case Damage(name, bytes) => s.(entry := Some(s.entry.value[name := bytes]))
    case Lose(name) => s.(entry := Some(s.entry.value - {name}))
    case LoseEntry => s.(entry := None)
  }

  predicate Feasible(env: Env, s: State, run: seq<Event>)
    decreases |run|
  {
    run != [] ==> Enabled(env, s, run[0]) && Feasible(env, Step(env, s, run[0]), run[1..])
  }

  function Exec(env: Env, s: State, run: seq<Event>): State
    requires Feasible(env, s, run)
    decreases |run|
  {
    if run == [] then s else Exec(env, Step(env, s, run[0]), run[1..])
  }

  lemma {:induction false} ExecSnoc(env: Env, s: State, run: seq<Event>, e: Event)
    requires Feasible(env, s, run) && Enabled(env, Exec(env, s, run), e)
    ensures Feasible(env, s, run + [e]) && Exec(env, s, run + [e]) == Step(env, Exec(env, s, run), e)
    decreases |run|
  {
    if run == [] {
      assert [e][1..] == [];
    } else {
      assert (run + [e])[1..] == run[1..] + [e];
      ExecSnoc(env, Step(env, s, run[0]), run[1..], e);
    }
  }

  /** Some run from nothing ends in the state. */
  ghost predicate Reachable(env: Env, s: State)
  {
    exists run :: Feasible(env, EMPTY, run) && Exec(env, EMPTY, run) == s
  }

  lemma ReachStep(env: Env, s: State, e: Event)
    requires Reachable(env, s) && Enabled(env, s, e)
    ensures Reachable(env, Step(env, s, e))
  {
    var run :| Feasible(env, EMPTY, run) && Exec(env, EMPTY, run) == s;
    ExecSnoc(env, EMPTY, run, e);
  }

  lemma ReachEmpty(env: Env)
    ensures Reachable(env, EMPTY)
  {
    assert Feasible(env, EMPTY, []);
  }

  // -------------------------------------------------------------- what every step keeps

  ghost predicate Published(env: Env, s: State, text: Bytes)
  {
    exists pub :: pub in s.published && text == TextOf(env, pub, env.h(pub.bytes))
  }

  /** A manifest in the entry is the whole manifest of something published. */
  ghost predicate EntryInv(env: Env, s: State)
  {
    s.entry.Some? && MANIFEST in s.entry.value ==> Published(env, s, s.entry.value[MANIFEST])
  }

  /** The temporary directory holds what the process has written so far. */
  predicate TempInv(env: Env, s: State)
  {
    match s.phase
    case Copying(pub, copied) =>
      && Publishable(env, pub) && copied <= |pub.bytes| && MANIFEST !in s.temp
      && (pub.name in s.temp ==> s.temp[pub.name] == pub.bytes[..copied])
    case Writing(pub, text, written) =>
      && Publishable(env, pub) && written <= |text| && text == TextOf(env, pub, env.h(pub.bytes))
      && s.temp == map[pub.name := pub.bytes, MANIFEST := text[..written]]
    case _ => true
  }

  ghost predicate Inv(env: Env, s: State)
  {
    EntryInv(env, s) && TempInv(env, s) && (s.phase.Copying? ==> s.temp.Keys <= {s.phase.pub.name})
  }

  lemma StepInv(env: Env, s: State, e: Event)
    requires Inv(env, s) && Enabled(env, s, e)
    ensures Inv(env, Step(env, s, e))
  {
    var u := Step(env, s, e);
    match e
    case StartManifest =>
      var pub := s.phase.pub;
      assert pub.bytes[..|pub.bytes|] == pub.bytes;
      assert u.temp == map[pub.name := pub.bytes, MANIFEST := []];
      assert u.phase.text[..0] == [];
    case Write(n) =>
      assert u.temp == map[s.phase.pub.name := s.phase.pub.bytes, MANIFEST := s.phase.text[..n]];
    case Rename =>
      assert s.phase.text[..s.phase.written] == s.phase.text;
      assert s.phase.pub in u.published;
      assert Published(env, u, u.entry.value[MANIFEST]);
    case _ =>
  }

  lemma {:induction false} ExecInv(env: Env, s: State, run: seq<Event>)
    requires Inv(env, s) && Feasible(env, s, run)
    ensures Inv(env, Exec(env, s, run))
    decreases |run|
  {
    if run != [] {
      StepInv(env, s, run[0]);
      ExecInv(env, Step(env, s, run[0]), run[1..]);
    }
  }

  // --------------------------------------------------------------------- cache hits

  lemma HitHasManifest(env: Env, s: State, inputs: Inputs) returns (pub: Publication)
    requires ReadsBack(env) && Inv(env, s) && CachedWheel(env, s.entry, inputs).Some?
    ensures pub in s.published && pub.name == CachedWheel(env, s.entry, inputs).value.0
    ensures env.h(pub.bytes) == env.h(CachedWheel(env, s.entry, inputs).value.1)
    ensures Flatten(env.h, pub.inputs, []) == Flatten(env.h, inputs, [])
  {
    var text := s.entry.value[MANIFEST];
    pub :| pub in s.published && text == TextOf(env, pub, env.h(pub.bytes));
    var m := Manifest(env.key, Flatten(env.h, pub.inputs, []), pub.name, env.h(pub.bytes));
    assert env.parse(env.render(m)) == Some(m);
  }

  /** Whatever happened before, stopped processes and damage included: a hit returns exactly the bytes published
      for equal inputs, where hashing tells the texts and wheels at hand apart. */
  lemma HitIsWhatWasPublished(env: Env, run: seq<Event>, inputs: Inputs, q: set<Bytes>) returns (pub: Publication)
    requires ReadsBack(env) && Feasible(env, EMPTY, run)
    requires var s := Exec(env, EMPTY, run);
      && CachedWheel(env, s.entry, inputs).Some? && CachedWheel(env, s.entry, inputs).value.1 in q
      && Separates(env.h, q) && WellFormed(inputs) && Covers(q, inputs)
      && forall p :: p in s.published ==> p.bytes in q && WellFormed(p.inputs) && Covers(q, p.inputs)
    ensures pub in Exec(env, EMPTY, run).published && pub.inputs == inputs
    ensures CachedWheel(env, Exec(env, EMPTY, run).entry, inputs) == Some((pub.name, pub.bytes))
    ensures env.wheel(pub.bytes) && env.local(pub.name) && env.keyOf(inputs) == env.key
  {
    var s := Exec(env, EMPTY, run);
    ExecInv(env, EMPTY, run);
    pub := HitHasManifest(env, s, inputs);
    assert Changed(env.h, pub.inputs, inputs) == {};
    UnchangedIff(env.h, q, pub.inputs, inputs);
  }

  /** Once the temporary directory has been renamed, the next look-up for those inputs is a hit on the wheel. */
  lemma RenamedIsHit(env: Env, s: State)
    requires ReadsBack(env) && Inv(env, s) && Enabled(env, s, Rename)
    ensures CachedWheel(env, Step(env, s, Rename).entry, s.phase.pub.inputs) ==
              Some((s.phase.pub.name, s.phase.pub.bytes))
  {
    var pub := s.phase.pub;
    assert s.phase.text[..s.phase.written] == s.phase.text;
    var m := Manifest(env.key, Flatten(env.h, pub.inputs, []), pub.name, env.h(pub.bytes));
    assert env.parse(env.render(m)) == Some(m);
  }

  // ---------------------------------------------------------------------- the program

  /** The bytes a publication writes: the wheel's and its manifest's. */
  function Cost(env: Env, pub: Publication): nat { |pub.bytes| + |TextOf(env, pub, env.h(pub.bytes))| }

  /** The number of files in the entry. */
  function Files(entry: Option<Dir>): nat { if entry.Some? then |entry.value| else 0 }

  class Disk {
    var state: State

    constructor ()
      ensures state == EMPTY && forall env :: Reachable(env, state)
    {
      state := EMPTY;
      forall env ensures Reachable(env, EMPTY) { ReachEmpty(env); }
    }

    method Do(env: Env, e: Event)
      requires Enabled(env, state, e) && Inv(env, state)
      modifies this
      ensures state == Step(env, old(state), e) && Inv(env, state)
      ensures Reachable(env, old(state)) ==> Reachable(env, state)
    {
      if Reachable(env, state) { ReachStep(env, state, e); }
      StepInv(env, state, e);
      state := Step(env, state, e);
    }

    /** `_discard_entry`: files go one by one, then the directory; the process may stop after `steps` of them. */
    method Discard(env: Env, steps: nat) returns (done: bool)
      requires Inv(env, state) && state.phase.Discarding?
      modifies this
      ensures Reachable(env, old(state)) ==> Reachable(env, state)
      ensures Inv(env, state) && state.phase == old(state.phase) && state.published == old(state.published)
      ensures done <==> steps >= Files(old(state.entry))
      ensures if done then state.entry.None?
              else state.entry.Some? && Files(state.entry) == Files(old(state.entry)) - steps
    {
      var left := steps;
      while state.entry.Some? && state.entry.value != map[]
        invariant Inv(env, state) && state.phase == old(state.phase) && state.published == old(state.published)
        invariant Reachable(env, old(state)) ==> Reachable(env, state)
        invariant 0 <= left <= steps && Files(state.entry) + (steps - left) == Files(old(state.entry))
        decreases if state.entry.Some? then |state.entry.value| else 0
      {
        if left == 0 {
          return false;
        }
        left := left - 1;
        var name :| name in state.entry.value;
        SmallerDir(state.entry.value, name);
        Do(env, RemoveFile(name));
      }
      if state.entry.Some? {
        Do(env, RemoveDir);
      }
      done := true;
    }

    /** The copy of the wheel into the temporary directory, byte by byte; the process may stop after `steps`. */
    method CopyWheel(env: Env, steps: nat) returns (left: int)
      requires Inv(env, state) && state.phase.Copying? && state.phase.copied == 0 && state.phase.pub.name in state.temp
      modifies this
      ensures Reachable(env, old(state)) ==> Reachable(env, state)
      ensures Inv(env, state) && state.phase.Copying? && state.phase.pub == old(state.phase.pub)
      ensures state.phase.pub.name in state.temp
      ensures state.entry == old(state.entry) && state.published == old(state.published)
      ensures left == steps - |old(state.phase.pub).bytes| || (left < 0 && steps < |old(state.phase.pub).bytes|)
      ensures left >= 0 ==> state.phase.copied == |state.phase.pub.bytes|
    {
      left := steps;
      ghost var pub := state.phase.pub;
      while state.phase.copied < |state.phase.pub.bytes|
        invariant Inv(env, state) && state.phase.Copying? && state.phase.pub == pub && pub.name in state.temp
        invariant Reachable(env, old(state)) ==> Reachable(env, state)
        invariant left >= 0 && left + state.phase.copied == steps
        invariant state.entry == old(state.entry) && state.published == old(state.published)
      {
        if left == 0 {
          return -1;
        }
        left := left - 1;
        Do(env, Copy(state.phase.copied + 1));
      }
    }

    /** The manifest likewise. */
    method WriteManifest(env: Env, steps: nat) returns (done: bool)
      requires Inv(env, state) && state.phase.Writing? && state.phase.written == 0
      modifies this
      ensures Reachable(env, old(state)) ==> Reachable(env, state)
      ensures Inv(env, state) && state.phase.Writing? && state.phase.pub == old(state.phase.pub)
      ensures state.entry == old(state.entry) && state.published == old(state.published)
      ensures done <==> steps >= |old(state.phase).text|
      ensures done ==> state.phase.written == |state.phase.text|
    {
      var left := steps;
      ghost var phase := state.phase;
      while state.phase.written < |state.phase.text|
        invariant Inv(env, state) && state.phase.Writing? && state.phase.pub == phase.pub
        invariant Reachable(env, old(state)) ==> Reachable(env, state)
        invariant state.phase.text == phase.text && left >= 0 && left + state.phase.written == steps
        invariant state.entry == old(state.entry) && state.published == old(state.published)
      {
        if left == 0 {
          return false;
        }
        left := left - 1;
        Do(env, Write(state.phase.written + 1));
      }
      done := true;
    }

    /** `_publish_cached_wheel` after its checks, byte by byte; the process may stop after `steps` of them. */
    method Publish(env: Env, pub: Publication, steps: nat) returns (done: bool)
      requires ReadsBack(env) && Inv(env, state) && Enabled(env, state, StartPublish(pub))
      modifies this
      ensures Reachable(env, old(state)) ==> Reachable(env, state)
      ensures Inv(env, state)
      ensures done <==> steps >= Cost(env, pub)
      ensures !done ==> state.entry.None? && state.published == old(state.published)
      ensures done ==> state.phase.Idle? && CachedWheel(env, state.entry, pub.inputs) == Some((pub.name, pub.bytes))
                       && state.published == old(state.published) + {pub}
    {
      Do(env, StartPublish(pub));
      Do(env, Copy(0));
      var left := CopyWheel(env, steps);
      if left < 0 {
        return false;
      }
      Do(env, StartManifest);
      done := WriteManifest(env, left);
      if done {
        RenamedIsHit(env, state);
        Do(env, Rename);
      }
    }
  }

  lemma SmallerDir(d: Dir, name: string)
    requires name in d
    ensures |d - {name}| == |d| - 1
  {
    assert (d - {name}).Keys == d.Keys - {name};
    assert |(d - {name}).Keys| == |d - {name}| && |d.Keys| == |d|;
  }

  datatype Outcome = Hit(name: string, bytes: Bytes) | Built | InputsChanged | KeyMismatch | InvalidWheel | Stopped

  /** There is no hit, and the process lives to see the old entry gone. */
  predicate Rebuilds(env: Env, entry: Option<Dir>, inputs: Inputs, discardSteps: nat)
  {
    CachedWheel(env, entry, inputs).None? && Files(entry) <= discardSteps
  }

  /** `_build_editable_cached`, for inputs whose key this entry is for; `wheels` is the caller's directory, `built` the
      wheel a build puts there and the inputs found after it.  Its two file loops may stop the process anywhere. */
  method BuildEditableCached(env: Env, disk: Disk, wheels: Dir, inputs: Inputs, built: Publication,
                             discardSteps: nat, publishSteps: nat)
    returns (res: Outcome, out: Dir)
    requires ReadsBack(env) && Inv(env, disk.state) && disk.state.phase.Idle? && env.keyOf(inputs) == env.key
    requires built.name != MANIFEST && env.local(built.name)
    modifies disk
    ensures Inv(env, disk.state) && disk.state.phase.Idle?
    ensures Reachable(env, old(disk.state)) ==> Reachable(env, disk.state)
    ensures res.Hit? <==> CachedWheel(env, old(disk.state.entry), inputs).Some?
    ensures res.Hit? ==> CachedWheel(env, old(disk.state.entry), inputs) == Some((res.name, res.bytes))
    ensures res.Hit? ==> disk.state == old(disk.state)
    ensures res.Hit? ==> out == wheels[res.name := res.bytes]
    // The wheel is built once the old entry is gone, whatever follows.
    ensures !res.Hit? ==>
      out == if Files(old(disk.state.entry)) <= discardSteps then wheels[built.name := built.bytes] else wheels
    ensures Rebuilds(env, old(disk.state.entry), inputs, discardSteps) ==> (res.Built? <==> disk.state.entry.Some?)
    // Each other end has its own condition, in the order of the checks; it is stopped exactly when none holds.
    ensures res.InputsChanged? <==>
      Rebuilds(env, old(disk.state.entry), inputs, discardSteps) && Changed(env.h, inputs, built.inputs) != {}
    ensures res.KeyMismatch? <==>
      && Rebuilds(env, old(disk.state.entry), inputs, discardSteps) && Changed(env.h, inputs, built.inputs) == {}
      && env.keyOf(built.inputs) != env.key
    ensures res.InvalidWheel? <==>
      && Rebuilds(env, old(disk.state.entry), inputs, discardSteps) && Changed(env.h, inputs, built.inputs) == {}
      && env.keyOf(built.inputs) == env.key && !env.wheel(built.bytes)
    ensures res.Built? <==>
      && Rebuilds(env, old(disk.state.entry), inputs, discardSteps) && Changed(env.h, inputs, built.inputs) == {}
      && env.keyOf(built.inputs) == env.key && env.wheel(built.bytes) && publishSteps >= Cost(env, built)
    ensures res.Built? ==> CachedWheel(env, disk.state.entry, built.inputs) == Some((built.name, built.bytes))
    ensures disk.state.published == old(disk.state.published) + if res.Built? then {built} else {}
  {
    var cached := CachedWheel(env, disk.state.entry, inputs);
    out := wheels;
    if cached.Some? {
      return Hit(cached.value.0, cached.value.1), wheels[cached.value.0 := cached.value.1];
    }
    disk.Do(env, Begin(inputs));
    var discarded := disk.Discard(env, discardSteps);
    if !discarded {
      disk.Do(env, Event.Stop);
      return Stopped, out;
    }
    out := wheels[built.name := built.bytes];
    if Changed(env.h, inputs, built.inputs) != {} {
      disk.Do(env, Event.Stop);
      return InputsChanged, out;
    }
    if env.keyOf(built.inputs) != env.key {
      disk.Do(env, Event.Stop);
      return KeyMismatch, out;
    }
    if !env.wheel(built.bytes) {
      disk.Do(env, Event.Stop);
      return InvalidWheel, out;
    }
    var done := disk.Publish(env, built, publishSteps);
    if !done {
      disk.Do(env, Event.Stop);
      return Stopped, out;
    }
    return Built, out;
  }
}
