/**
 * The glow shader program (glow_program_t): its GL object names, the compiled flag and the
 * cached uniform locations. GL calls are outside the model: the names glCreateShader and
 * glCreateProgram hand out, the outcomes of the two compiles and of the link, and the
 * locations glGetUniformLocation reports are inputs (a CompileOutcome).
 */
module Shader {

  /** The eleven cached uniform locations; -1 means "not looked up". */
  datatype Uniforms = Uniforms(
    resolution: int, borderBox: int, glowColor: int, glowColor2: int, glowRadius: int,
    glowIntensity: int, borderWidth: int, time: int, enableGradient: int,
    gradientAngle: int, cornerRadius: int)

  const Unset := Uniforms(-1, -1, -1, -1, -1, -1, -1, -1, -1, -1, -1)

  /** GL object names of one program: 0 is "no object". */
  datatype GlObjects = GlObjects(vertexShader: nat, fragmentShader: nat, program: nat)

  const NoObjects := GlObjects(0, 0, 0)

  /** The non-zero names among a program's objects. */
  function Names(o: GlObjects): set<nat> {
    {o.vertexShader, o.fragmentShader, o.program} - {0}
  }

  /** What the GL driver answers during one compile_shaders attempt. */
  datatype CompileOutcome = CompileOutcome(
    created: GlObjects, vertexOk: bool, fragmentOk: bool, linkOk: bool, locations: Uniforms)

  /**
   * The abstract state of a program. `live` is the set of GL names created and not yet
   * deleted, which shows what a retried compile leaves behind.
   */
  datatype ProgramState = ProgramState(objects: GlObjects, compiled: bool, uniforms: Uniforms, live: set<nat>)

  /** The state of a freshly constructed program. */
  const Initial := ProgramState(NoObjects, false, Unset, {})

  /**
   * One call of compile_shaders. A compiled program is left as it is. Otherwise fresh objects
   * replace the old names (which are not deleted), and the program ends compiled, with the
   * reported uniform locations, exactly when both compiles and the link succeed.
   */
  function CompileStep(s: ProgramState, o: CompileOutcome): (t: ProgramState)
    ensures s.compiled ==> t == s
    ensures !s.compiled ==> t.objects == o.created && t.live == s.live + Names(o.created)
    ensures t.compiled <==> s.compiled || (o.vertexOk && o.fragmentOk && o.linkOk)
    ensures t.uniforms == if !s.compiled && t.compiled then o.locations else s.uniforms
  {
    if s.compiled then s
    else
      var ok := o.vertexOk && o.fragmentOk && o.linkOk;
      ProgramState(o.created, ok, if ok then o.locations else s.uniforms, s.live + Names(o.created))
  }

  /** destroy: every non-zero name is deleted, all names are zeroed, the flag cleared. */
  function DestroyStep(s: ProgramState): (t: ProgramState)
    ensures t.objects == NoObjects && !t.compiled && t.uniforms == s.uniforms
    ensures t.live == s.live - Names(s.objects)
  {
    ProgramState(NoObjects, false, s.uniforms, s.live - Names(s.objects))
  }

  /** A second destroy is harmless: it deletes nothing and changes nothing. */
  lemma DestroyTwiceHarmless(s: ProgramState)
    ensures DestroyStep(DestroyStep(s)) == DestroyStep(s)
  {
    assert Names(NoObjects) == {};
  }

  /** After destroy a new compile starts from scratch and can succeed again. */
  lemma DestroyThenCompile(s: ProgramState, o: CompileOutcome)
    requires o.vertexOk && o.fragmentOk && o.linkOk
    ensures CompileStep(DestroyStep(s), o).compiled
    ensures CompileStep(DestroyStep(s), o).uniforms == o.locations
  {
  }

  /** Every name the program holds is live: the program never refers to a deleted object. */
  predicate HoldsLiveNames(s: ProgramState) {
    Names(s.objects) <= s.live
  }

  /** The initial state holds no names; compile and destroy keep the held names live. */
  lemma StepsKeepHeldNamesLive(s: ProgramState, o: CompileOutcome)
    ensures HoldsLiveNames(Initial)
    ensures HoldsLiveNames(s) ==> HoldsLiveNames(CompileStep(s, o)) && HoldsLiveNames(DestroyStep(s))
  {
    assert Names(NoObjects) == {};
  }

  /**
   * When the driver hands out names that are not live, they differ from the names a reachable
   * state holds, so a retry meets the requirements of RetryAbandonsObjects.
   */
  lemma FreshNamesDiffer(s: ProgramState, o: CompileOutcome)
    requires HoldsLiveNames(s) && Names(o.created) !! s.live
    ensures Names(s.objects) !! Names(o.created)
  {
  }

  /**
   * A failed attempt is retried on the next call, and the retry abandons the names of the
   * previous attempt: they stay live while the program no longer refers to them.
   */
  lemma RetryAbandonsObjects(s: ProgramState, o: CompileOutcome)
    requires !s.compiled && !(o.vertexOk && o.fragmentOk && o.linkOk)
    requires HoldsLiveNames(s) && Names(s.objects) !! Names(o.created)
    ensures var t := CompileStep(s, o);
      && !t.compiled && Names(s.objects) <= t.live && Names(s.objects) !! Names(t.objects)
  {
  }

  class GlowProgram {
    var program: nat
    var vertexShader: nat
    var fragmentShader: nat
    var compiled: bool
    var uniforms: Uniforms
    ghost var live: set<nat>

    ghost function State(): ProgramState
      reads this
    {
      ProgramState(GlObjects(vertexShader, fragmentShader, program), compiled, uniforms, live)
    }

    /** A new program is uncompiled, holds no objects and has every location unset. */
    constructor ()
      ensures State() == Initial
    {
      program, vertexShader, fragmentShader := 0, 0, 0;
      compiled := false;
      uniforms := Unset;
      live := {};
    }

    method CompileShaders(o: CompileOutcome) returns (ok: bool)
      modifies this
      ensures State() == CompileStep(old(State()), o)
      ensures ok == compiled
    {
      if compiled {
        return true;
      }
      vertexShader := o.created.vertexShader;
      fragmentShader := o.created.fragmentShader;
      program := o.created.program;
      live := live + Names(o.created);
      if !o.vertexOk {
        return false;
      }
      if !o.fragmentOk {
        return false;
      }
      if !o.linkOk {
        return false;
      }
      uniforms := o.locations;
      compiled := true;
      return true;
    }

    method Destroy()
      modifies this
      ensures State() == DestroyStep(old(State()))
    {
      ghost var before := State();
      if program != 0 {
        live := live - {program};
      }
      if vertexShader != 0 {
        live := live - {vertexShader};
      }
      if fragmentShader != 0 {
        live := live - {fragmentShader};
      }
      program, vertexShader, fragmentShader := 0, 0, 0;
      compiled := false;
      assert live == before.live - Names(before.objects);
    }
  }
}
