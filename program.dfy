/**
  The bookkeeping of a linked GL shader program
  (scm_gl_core/src/scm/gl_core/shader_objects/program.cpp).

  A program keeps tables, keyed by name, of its vertex attributes, its
  uniforms, its uniform blocks and, per shader stage, its subroutine
  uniforms and subroutines. The tables are filled by introspection after
  linking, read by the lookup functions, changed by the setters, and
  pushed to the device by bind_uniforms.

  The GL device is not modelled. What introspection queries (the active
  variables with their names, types, sizes and locations) is an input
  sequence of records, and the calls the program issues are appended to a
  call log. Messages the program writes to the error or debug log go to a
  message log.
*/
module ShaderProgram {

  // ---------------------------------------------------------------------
  // Types reported by the device

  /** The GL type of an active variable, as far as the program distinguishes it. */
  datatype GlType =
    | GlFloat | GlFloatVec2 | GlFloatVec3 | GlFloatVec4
    | GlFloatMat2 | GlFloatMat3 | GlFloatMat4
    | GlDouble | GlDoubleVec2 | GlDoubleVec3 | GlDoubleVec4
    | GlDoubleMat2 | GlDoubleMat3 | GlDoubleMat4
    | GlInt | GlIntVec2 | GlIntVec3 | GlIntVec4
    | GlUnsignedInt | GlUnsignedIntVec2 | GlUnsignedIntVec3 | GlUnsignedIntVec4
    | GlSampler(code: int)   // any sampler type
    | GlOther(code: int)     // every other type: booleans, non-square matrices, ...

  predicate IsDouble(t: GlType)
  {
    t.GlDouble? || t.GlDoubleVec2? || t.GlDoubleVec3? || t.GlDoubleVec4?
    || t.GlDoubleMat2? || t.GlDoubleMat3? || t.GlDoubleMat4?
  }

  /**
    The non-sampler types retrieve_uniform_information creates a uniform
    object for: float, int and unsigned scalars and vectors, square float
    matrices and, with OpenGL 4.0, their double counterparts.
  */
  predicate SupportedUniformType(t: GlType, gl40: bool)
  {
    match t
    case GlSampler(_) => false
    case GlOther(_) => false
    case _ => gl40 || !IsDouble(t)
  }

  /** The prefix of built-in variables, which introspection skips. */
  predicate HasGlPrefix(name: string)
  {
    |name| >= 3 && name[..3] == "gl_"
  }

  // ---------------------------------------------------------------------
  // Table entries

  /** An attribute: name, location, array size and type. */
  datatype Variable = Variable(name: string, location: int, size: int, glType: GlType)

  /**
    A uniform object. Samplers are sampler uniforms of data type int; every
    other uniform has the data type of its GL type. The flag says that its
    value has changed since it was last applied.
  */
  datatype Uniform = Uniform(name: string, location: int, size: int, dataType: GlType,
                             isSampler: bool, updateRequired: bool)

  /** A uniform block: its index in the program, data size, binding point and dirty flag. */
  datatype UniformBlock = UniformBlock(name: string, blockIndex: int, size: int,
                                       binding: nat, updateRequired: bool)

  /** A subroutine uniform: its location and the index of the routine selected for it. */
  datatype SubroutineUniform = SubroutineUniform(name: string, location: int, selectedRoutine: nat)

  /** A subroutine: its index in its stage. */
  datatype Subroutine = Subroutine(name: string, index: nat)

  // ---------------------------------------------------------------------
  // What the device reports and what the program issues

  /** glGetActiveAttrib at one index, followed by glGetAttribLocation on the name it returned. */
  datatype ActiveAttribute = ActiveAttribute(name: string, size: int, glType: GlType, location: int)

  /** glGetActiveUniform at one index, followed by glGetUniformLocation on the name it returned. */
  datatype ActiveUniform = ActiveUniform(name: string, size: int, glType: GlType, location: int)

  /** The name, data size and index the device reports for one active uniform block. */
  datatype ActiveBlock = ActiveBlock(name: string, size: int, index: int)

  /** The name and location of one active subroutine uniform of a stage. */
  datatype ActiveSubroutineUniform = ActiveSubroutineUniform(name: string, location: int)

  /** glGetActiveSubroutineName at one index, followed by glGetSubroutineIndex on that name. */
  datatype ActiveSubroutine = ActiveSubroutine(name: string, index: nat)

  /** The calls bind_uniforms issues. */
  datatype DeviceCall =
    | ApplyUniform(name: string, location: int)
    | UniformBlockBinding(blockIndex: int, binding: nat)
    | UniformSubroutines(stage: nat, indices: seq<nat>)

  /** Messages the program logs. */
  datatype Message =
    | UnsupportedUniformType(name: string)
    | MissingUniformBuffer(name: string)
    | MissingSubroutineUniform(name: string)
    | MissingRoutine(name: string)

  /** Error states of the program object. */
  datatype ProgramError = BadObject | InvalidValue | ShaderLinkError

  /**
    The error states construction leaves: a program object the device
    could not create is bad and nothing else happens; otherwise a shader
    that is missing or fails to attach is an invalid value, and a failed
    link is a link error.
  */
  function ConstructionErrors(created: bool, attached: seq<bool>, linkStatus: bool): set<ProgramError>
  {
    if !created then {BadObject}
    else (if false in attached then {InvalidValue} else {}) + (if linkStatus then {} else {ShaderLinkError})
  }

  /** The shader-attaching loop of the constructor: any missing or failing shader makes the object an invalid value. */
  method AttachShaders(attached: seq<bool>) returns (errors: set<ProgramError>)
    ensures errors == if false in attached then {InvalidValue} else {}
  {
    errors := {};
    for i := 0 to |attached|
      invariant errors == if false in attached[..i] then {InvalidValue} else {}
    {
      assert attached[..i + 1] == attached[..i] + [attached[i]];
      if !attached[i] {
        errors := errors + {InvalidValue};
      }
    }
    assert attached[..|attached|] == attached;
  }

  // ---------------------------------------------------------------------
  // Introspection, as functions of the reported records

  /** Every entry is stored under its own name. */
  ghost predicate NamedVariables(m: map<string, Variable>)
  {
    forall n :: n in m ==> m[n].name == n
  }

  ghost predicate NamedUniforms(m: map<string, Uniform>)
  {
    forall n :: n in m ==> m[n].name == n
  }

  /** retrieve_attribute_information for one reported attribute: built-ins are skipped, others (re)placed. */
  function RecordAttribute(m: map<string, Variable>, a: ActiveAttribute): map<string, Variable>
  {
    if HasGlPrefix(a.name) then m else m[a.name := Variable(a.name, a.location, a.size, a.glType)]
  }

  /** The attribute table after the reported attributes have been recorded in order. */
  function RecordAttributes(m: map<string, Variable>, s: seq<ActiveAttribute>): map<string, Variable>
  {
    if s == [] then m else RecordAttribute(RecordAttributes(m, s[..|s| - 1]), s[|s| - 1])
  }

  /**
    Introspection records exactly the attributes that are not built in.
    A name is in the new table when it was there before or some reported
    attribute without the "gl_" prefix has it, and no built-in is added.
  */
  lemma {:induction false} RecordAttributesKeys(m: map<string, Variable>, s: seq<ActiveAttribute>)
    ensures forall n :: n in RecordAttributes(m, s) <==>
      n in m || exists i :: 0 <= i < |s| && s[i].name == n && !HasGlPrefix(n)
  {
    if s != [] {
      RecordAttributesKeys(m, s[..|s| - 1]);
      var last := s[|s| - 1];
      forall n
        ensures n in RecordAttributes(m, s) <==>
          n in m || exists i :: 0 <= i < |s| && s[i].name == n && !HasGlPrefix(n)
      {
        if n in RecordAttributes(m, s) && n !in m && n != last.name {
          var i :| 0 <= i < |s| - 1 && s[..|s| - 1][i].name == n && !HasGlPrefix(n);
          assert s[i].name == n;
        }
        if exists i :: 0 <= i < |s| && s[i].name == n && !HasGlPrefix(n) {
          var i :| 0 <= i < |s| && s[i].name == n && !HasGlPrefix(n);
          if i < |s| - 1 {
            assert s[..|s| - 1][i].name == n;
          }
        }
      }
    }
  }

  /** The entry recorded for a name is the one from the last report of that name. */
  lemma {:induction false} RecordAttributesLast(m: map<string, Variable>, s: seq<ActiveAttribute>, i: int)
    requires 0 <= i < |s| && !HasGlPrefix(s[i].name)
    requires forall j :: i < j < |s| ==> s[j].name != s[i].name
    ensures s[i].name in RecordAttributes(m, s)
    ensures RecordAttributes(m, s)[s[i].name] == Variable(s[i].name, s[i].location, s[i].size, s[i].glType)
  {
    if i < |s| - 1 {
      RecordAttributesLast(m, s[..|s| - 1], i);
    }
  }

  /** Recording keeps every entry under its own name. */
  lemma {:induction false} RecordAttributesNamed(m: map<string, Variable>, s: seq<ActiveAttribute>)
    requires NamedVariables(m)
    ensures NamedVariables(RecordAttributes(m, s))
  {
    if s != [] {
      RecordAttributesNamed(m, s[..|s| - 1]);
    }
  }

  /** The uniform object retrieve_uniform_information creates for a reported uniform, if any. */
  function MakeUniform(a: ActiveUniform, gl40: bool): Option<Uniform>
  {
    if a.glType.GlSampler? then Some(Uniform(a.name, a.location, a.size, GlInt, true, false))
    else if SupportedUniformType(a.glType, gl40) then Some(Uniform(a.name, a.location, a.size, a.glType, false, false))
    else None
  }

  datatype Option<T> = None | Some(value: T)

  /** The uniform table and the message log while uniforms are being recorded. */
  datatype UniformState = UniformState(uniforms: map<string, Uniform>, messages: seq<Message>)

  /**
    One reported uniform: built-ins are skipped, samplers and supported
    types are (re)placed, an unsupported type is logged and not recorded.
  */
  function RecordUniform(st: UniformState, a: ActiveUniform, gl40: bool): UniformState
  {
    if HasGlPrefix(a.name) then st
    else match MakeUniform(a, gl40)
      case Some(u) => st.(uniforms := st.uniforms[a.name := u])
      case None => st.(messages := st.messages + [UnsupportedUniformType(a.name)])
  }

  function RecordUniforms(st: UniformState, s: seq<ActiveUniform>, gl40: bool): UniformState
  {
    if s == [] then st else RecordUniform(RecordUniforms(st, s[..|s| - 1], gl40), s[|s| - 1], gl40)
  }

  /** u is the object created for the reported uniform a: a sampler as an int uniform, any other uniform with its own type. */
  ghost predicate CreatedFrom(u: Uniform, a: ActiveUniform, gl40: bool)
  {
    && !HasGlPrefix(a.name)
    && u.name == a.name && u.location == a.location && u.size == a.size && !u.updateRequired
    && (a.glType.GlSampler? ==> u.isSampler && u.dataType == GlInt)
    && (!a.glType.GlSampler? ==> !u.isSampler && u.dataType == a.glType && SupportedUniformType(a.glType, gl40))
  }

  /**
    Every uniform in the new table was there before or was created from a
    reported uniform that is neither built in nor of an unsupported type.
  */
  lemma {:induction false} RecordUniformsOrigin(st: UniformState, s: seq<ActiveUniform>, gl40: bool)
    ensures forall n :: n in RecordUniforms(st, s, gl40).uniforms ==>
      (n in st.uniforms && RecordUniforms(st, s, gl40).uniforms[n] == st.uniforms[n])
      || exists i :: 0 <= i < |s| && CreatedFrom(RecordUniforms(st, s, gl40).uniforms[n], s[i], gl40)
  {
    if s != [] {
      var s' := s[..|s| - 1];
      RecordUniformsOrigin(st, s', gl40);
      var prev, now := RecordUniforms(st, s', gl40).uniforms, RecordUniforms(st, s, gl40).uniforms;
      forall n | n in now
        ensures (n in st.uniforms && now[n] == st.uniforms[n])
          || exists i :: 0 <= i < |s| && CreatedFrom(now[n], s[i], gl40)
      {
        if n in prev && now[n] == prev[n] {
          if !(n in st.uniforms && prev[n] == st.uniforms[n]) {
            var i :| 0 <= i < |s'| && CreatedFrom(prev[n], s'[i], gl40);
            assert s[i] == s'[i];
          }
        } else {
          assert CreatedFrom(now[n], s[|s| - 1], gl40);
        }
      }
    }
  }

  /** A reported uniform that is not built in ends up in the table exactly when its type is a sampler or supported. */
  lemma {:induction false} RecordUniformsLast(st: UniformState, s: seq<ActiveUniform>, gl40: bool, i: int)
    requires 0 <= i < |s| && !HasGlPrefix(s[i].name)
    requires forall j :: i < j < |s| ==> s[j].name != s[i].name
    requires s[i].glType.GlSampler? || SupportedUniformType(s[i].glType, gl40)
    ensures s[i].name in RecordUniforms(st, s, gl40).uniforms
    ensures CreatedFrom(RecordUniforms(st, s, gl40).uniforms[s[i].name], s[i], gl40)
  {
    if i < |s| - 1 {
      RecordUniformsLast(st, s[..|s| - 1], gl40, i);
    }
  }

  /** The messages logged are exactly one per reported uniform of an unsupported type, in report order. */
  function UnsupportedReports(s: seq<ActiveUniform>, gl40: bool): seq<Message>
  {
    if s == [] then []
    else
      var a := s[|s| - 1];
      UnsupportedReports(s[..|s| - 1], gl40)
      + (if !HasGlPrefix(a.name) && MakeUniform(a, gl40).None? then [UnsupportedUniformType(a.name)] else [])
  }

  lemma {:induction false} RecordUniformsMessages(st: UniformState, s: seq<ActiveUniform>, gl40: bool)
    ensures RecordUniforms(st, s, gl40).messages == st.messages + UnsupportedReports(s, gl40)
  {
    if s != [] {
      RecordUniformsMessages(st, s[..|s| - 1], gl40);
    }
  }

  lemma {:induction false} RecordUniformsNamed(st: UniformState, s: seq<ActiveUniform>, gl40: bool)
    requires NamedUniforms(st.uniforms)
    ensures NamedUniforms(RecordUniforms(st, s, gl40).uniforms)
  {
    if s != [] {
      RecordUniformsNamed(st, s[..|s| - 1], gl40);
    }
  }

  /** One reported uniform block; blocks are not filtered by name. A new block starts at binding 0, clean. */
  function RecordBlock(m: map<string, UniformBlock>, b: ActiveBlock): map<string, UniformBlock>
  {
    m[b.name := UniformBlock(b.name, b.index, b.size, 0, false)]
  }

  function RecordBlocks(m: map<string, UniformBlock>, s: seq<ActiveBlock>): map<string, UniformBlock>
  {
    if s == [] then m else RecordBlock(RecordBlocks(m, s[..|s| - 1]), s[|s| - 1])
  }

  /** One reported subroutine uniform; its selected routine starts at 0. */
  function RecordSubroutineUniform(m: map<string, SubroutineUniform>, a: ActiveSubroutineUniform): map<string, SubroutineUniform>
  {
    m[a.name := SubroutineUniform(a.name, a.location, 0)]
  }

  function RecordSubroutineUniforms(m: map<string, SubroutineUniform>, s: seq<ActiveSubroutineUniform>): map<string, SubroutineUniform>
  {
    if s == [] then m else RecordSubroutineUniform(RecordSubroutineUniforms(m, s[..|s| - 1]), s[|s| - 1])
  }

  function RecordSubroutine(m: map<string, Subroutine>, a: ActiveSubroutine): map<string, Subroutine>
  {
    m[a.name := Subroutine(a.name, a.index)]
  }

  function RecordSubroutines(m: map<string, Subroutine>, s: seq<ActiveSubroutine>): map<string, Subroutine>
  {
    if s == [] then m else RecordSubroutine(RecordSubroutines(m, s[..|s| - 1]), s[|s| - 1])
  }

  /** The subroutine table gains exactly the names reported, each with the index of its last report. */
  lemma {:induction false} RecordSubroutinesKeys(m: map<string, Subroutine>, s: seq<ActiveSubroutine>)
    ensures forall n :: n in RecordSubroutines(m, s) <==> n in m || exists i :: 0 <= i < |s| && s[i].name == n
  {
    if s != [] {
      RecordSubroutinesKeys(m, s[..|s| - 1]);
      forall n
        ensures n in RecordSubroutines(m, s) <==> n in m || exists i :: 0 <= i < |s| && s[i].name == n
      {
        if n in RecordSubroutines(m, s) && n !in m && n != s[|s| - 1].name {
          var i :| 0 <= i < |s| - 1 && s[..|s| - 1][i].name == n;
          assert s[i].name == n;
        }
        if exists i :: 0 <= i < |s| && s[i].name == n {
          var i :| 0 <= i < |s| && s[i].name == n;
          if i < |s| - 1 {
            assert s[..|s| - 1][i].name == n;
          }
        }
      }
    }
  }

  /**
    The subroutine loop as written queries the indices 1 .. n instead of
    0 .. n - 1, so subroutine 0 is never asked for. Query n is out of range
    and leaves the name buffer as it was. With two or more subroutines the
    buffer still holds the name of subroutine n - 1, which is recorded
    again and changes nothing. With one subroutine the buffer was never
    written: the entry is made under whatever the uninitialised buffer
    holds, which is undefined behaviour in C++. `stale` stands for that
    indeterminate name and the index the device returns for it.
  */
  function RecordSubroutinesAsWritten(m: map<string, Subroutine>, s: seq<ActiveSubroutine>,
                                      stale: ActiveSubroutine): map<string, Subroutine>
  {
    if s == [] then m
    else if |s| == 1 then RecordSubroutine(m, stale)
    else RecordSubroutines(m, s[1..])
  }

  /**
    A subroutine reported only at index 0 is missing from the table built as
    written (unless, with a single subroutine, the indeterminate name happens
    to be its name), and present in the corrected one.
  */
  lemma FirstSubroutineMissing(m: map<string, Subroutine>, s: seq<ActiveSubroutine>, stale: ActiveSubroutine)
    requires |s| > 0 && s[0].name !in m
    requires forall i :: 1 <= i < |s| ==> s[i].name != s[0].name
    ensures |s| >= 2 || stale.name != s[0].name ==> s[0].name !in RecordSubroutinesAsWritten(m, s, stale)
    ensures s[0].name in RecordSubroutines(m, s)
  {
    RecordSubroutinesKeys(m, s);
    RecordSubroutinesKeys(m, s[1..]);
    assert forall i :: 0 <= i < |s[1..]| ==> s[1..][i] == s[i + 1];
  }

  /** Two subroutines "shade" (index 0) and "tint" (index 1): only "tint" is recorded as written. */
  lemma FirstSubroutineMissingExample(stale: ActiveSubroutine)
    ensures RecordSubroutinesAsWritten(map[], [ActiveSubroutine("shade", 0), ActiveSubroutine("tint", 1)], stale)
      == map["tint" := Subroutine("tint", 1)]
    ensures RecordSubroutines(map[], [ActiveSubroutine("shade", 0), ActiveSubroutine("tint", 1)])
      == map["shade" := Subroutine("shade", 0), "tint" := Subroutine("tint", 1)]
  {
    var s := [ActiveSubroutine("shade", 0), ActiveSubroutine("tint", 1)];
    assert s[1..] == [ActiveSubroutine("tint", 1)];
    assert s[1..][..0] == [];
    assert RecordSubroutinesAsWritten(map[], s, stale) == RecordSubroutines(map[], s[1..]);
    assert RecordSubroutines(map[], s[1..]) == RecordSubroutine(map[], ActiveSubroutine("tint", 1));
    assert s[..1] == [ActiveSubroutine("shade", 0)];
    assert s[..1][..0] == [];
  }

  // ---------------------------------------------------------------------
  // bind_uniforms, as functions of the tables

  /** The calls bind_uniforms issues for the uniforms: one per dirty uniform. */
  ghost function UniformCalls(m: map<string, Uniform>): set<DeviceCall>
  {
    set n | n in m && m[n].updateRequired :: ApplyUniform(n, m[n].location)
  }

  /** The calls bind_uniforms issues for the blocks: one binding per dirty block. */
  ghost function BlockCalls(m: map<string, UniformBlock>): set<DeviceCall>
  {
    set n | n in m && m[n].updateRequired :: BindingOf(m[n])
  }

  /** The blocks whose binding has changed since they were last bound. */
  ghost function DirtyBlocks(m: map<string, UniformBlock>): set<string>
  {
    set n | n in m && m[n].updateRequired
  }

  /** The uniform table with every dirty flag cleared. */
  function CleanUniforms(m: map<string, Uniform>): map<string, Uniform>
  {
    map n | n in m :: m[n].(updateRequired := false)
  }

  function CleanBlocks(m: map<string, UniformBlock>): map<string, UniformBlock>
  {
    map n | n in m :: m[n].(updateRequired := false)
  }

  /** After bind_uniforms nothing is dirty, so binding again issues no uniform or block call. */
  lemma CleanTablesIssueNothing(u: map<string, Uniform>, b: map<string, UniformBlock>)
    ensures UniformCalls(CleanUniforms(u)) == {} && forall n :: n in CleanUniforms(u) ==> !CleanUniforms(u)[n].updateRequired
    ensures BlockCalls(CleanBlocks(b)) == {} && DirtyBlocks(CleanBlocks(b)) == {}
    ensures CleanUniforms(CleanUniforms(u)) == CleanUniforms(u)
    ensures CleanBlocks(CleanBlocks(b)) == CleanBlocks(b)
  {
  }

  /** Cleaning changes nothing but the flags. */
  lemma CleanKeepsEntries(u: map<string, Uniform>, n: string)
    requires n in u
    ensures n in CleanUniforms(u) && CleanUniforms(u)[n] == u[n].(updateRequired := false)
    ensures !CleanUniforms(u)[n].updateRequired
  {
  }

  predicate NoDuplicates<T(==)>(s: seq<T>)
  {
    forall i, j :: 0 <= i < j < |s| ==> s[i] != s[j]
  }

  /** Every subroutine uniform of the stage has a distinct location in 0 .. n - 1, n being their number. */
  ghost predicate LocationsValid(m: map<string, SubroutineUniform>)
  {
    && (forall n :: n in m ==> 0 <= m[n].location < |m|)
    && (forall n1, n2 :: n1 in m && n2 in m && n1 != n2 ==> m[n1].location != m[n2].location)
  }

  lemma DistinctLocations(m: map<string, SubroutineUniform>, n1: string, n2: string)
    requires LocationsValid(m) && n1 in m && n2 in m && n1 != n2
    ensures m[n1].location != m[n2].location
  {
  }

  /** The index array for a stage: one entry per subroutine uniform, holding its selected routine at its location. */
  ghost predicate IsIndexArray(m: map<string, SubroutineUniform>, indices: seq<nat>)
  {
    && |indices| == |m|
    && forall n :: n in m && 0 <= m[n].location < |indices| ==> indices[m[n].location] == m[n].selectedRoutine
  }

  /** The stages below k that have subroutine uniforms, in increasing order. */
  function NonEmptyStages(stages: seq<map<string, SubroutineUniform>>, k: nat): seq<nat>
    requires k <= |stages|
  {
    if k == 0 then []
    else NonEmptyStages(stages, k - 1) + (if |stages[k - 1]| > 0 then [k - 1] else [])
  }

  /** The list holds exactly the stages below k that have subroutine uniforms. */
  lemma {:induction false} NonEmptyStagesMembers(stages: seq<map<string, SubroutineUniform>>, k: nat)
    requires k <= |stages|
    ensures forall t: nat :: t in NonEmptyStages(stages, k) <==> t < k && |stages[t]| > 0
  {
    if k > 0 {
      NonEmptyStagesMembers(stages, k - 1);
    }
  }

  /** The stages are listed in increasing order, so each once. */
  lemma {:induction false} NonEmptyStagesIncreasing(stages: seq<map<string, SubroutineUniform>>, k: nat)
    requires k <= |stages|
    ensures forall i, j :: 0 <= i < j < |NonEmptyStages(stages, k)| ==> NonEmptyStages(stages, k)[i] < NonEmptyStages(stages, k)[j]
  {
    if k > 0 {
      var prefix := NonEmptyStages(stages, k - 1);
      NonEmptyStagesIncreasing(stages, k - 1);
      NonEmptyStagesMembers(stages, k - 1);
      assert forall i :: 0 <= i < |prefix| ==> prefix[i] in prefix;
    }
  }

  /**
    The subroutine calls of bind_uniforms: one per stage with subroutine
    uniforms, in stage order, each carrying that stage's index array.
  */
  ghost predicate IsSubroutineCalls(calls: seq<DeviceCall>, stages: seq<map<string, SubroutineUniform>>)
  {
    var expected := NonEmptyStages(stages, |stages|);
    && |calls| == |expected|
    && forall i :: 0 <= i < |calls| ==>
         calls[i].UniformSubroutines? && calls[i].stage == expected[i] && expected[i] < |stages|
         && IsIndexArray(stages[expected[i]], calls[i].indices)
  }

  /** Reported blocks are stored under their names, new at binding 0 and clean. */
  lemma {:induction false} RecordBlocksLast(m: map<string, UniformBlock>, s: seq<ActiveBlock>, i: int)
    requires 0 <= i < |s|
    requires forall j :: i < j < |s| ==> s[j].name != s[i].name
    ensures s[i].name in RecordBlocks(m, s)
    ensures RecordBlocks(m, s)[s[i].name] == UniformBlock(s[i].name, s[i].index, s[i].size, 0, false)
  {
    if i < |s| - 1 {
      RecordBlocksLast(m, s[..|s| - 1], i);
    }
  }

  /** Reported subroutine uniforms are stored under their names with routine 0 selected. */
  lemma {:induction false} RecordSubroutineUniformsLast(m: map<string, SubroutineUniform>, s: seq<ActiveSubroutineUniform>, i: int)
    requires 0 <= i < |s|
    requires forall j :: i < j < |s| ==> s[j].name != s[i].name
    ensures s[i].name in RecordSubroutineUniforms(m, s)
    ensures RecordSubroutineUniforms(m, s)[s[i].name] == SubroutineUniform(s[i].name, s[i].location, 0)
  {
    if i < |s| - 1 {
      RecordSubroutineUniformsLast(m, s[..|s| - 1], i);
    }
  }

  /** A uniform that is only ever reported with an unsupported type is not in the table. */
  lemma UnsupportedNotRecorded(st: UniformState, s: seq<ActiveUniform>, gl40: bool, name: string)
    requires name !in st.uniforms
    requires forall i :: 0 <= i < |s| && s[i].name == name ==> MakeUniform(s[i], gl40).None?
    ensures name !in RecordUniforms(st, s, gl40).uniforms
  {
    RecordUniformsOrigin(st, s, gl40);
  }

  /** A changed binding set by uniform_buffer is issued by the next bind_uniforms. */
  lemma RebindIsIssued(m: map<string, UniformBlock>, name: string, binding: nat)
    requires name in m
    ensures UniformBlockBinding(m[name].blockIndex, binding)
      in BlockCalls(m[name := m[name].(binding := binding, updateRequired := true)])
  {
    var m' := m[name := m[name].(binding := binding, updateRequired := true)];
    assert BindingOf(m'[name]) == UniformBlockBinding(m[name].blockIndex, binding);
  }

  /** A uniform whose value was set is applied by the next bind_uniforms. */
  lemma MarkedIsApplied(m: map<string, Uniform>, name: string)
    requires name in m
    ensures ApplyUniform(name, m[name].location) in UniformCalls(m[name := m[name].(updateRequired := true)])
  {
    var m' := m[name := m[name].(updateRequired := true)];
    assert m'[name].updateRequired;
  }

  /** Selecting a routine keeps the locations, and the next index array holds the routine at the uniform's location. */
  lemma SelectedRoutineIsIssued(m: map<string, SubroutineUniform>, name: string, routine: nat, indices: seq<nat>)
    requires LocationsValid(m) && name in m
    requires IsIndexArray(m[name := m[name].(selectedRoutine := routine)], indices)
    ensures LocationsValid(m[name := m[name].(selectedRoutine := routine)])
    ensures indices[m[name].location] == routine
  {
    var m' := m[name := m[name].(selectedRoutine := routine)];
    assert m'.Keys == m.Keys;
    forall n1, n2 | n1 in m' && n2 in m' && n1 != n2
      ensures m'[n1].location != m'[n2].location
    {
      DistinctLocations(m, n1, n2);
    }
    assert m'[name].location == m[name].location;
  }

  /** The locations stored in a table. */
  ghost function Locations(m: map<string, SubroutineUniform>, names: set<string>): set<int>
    requires names <= m.Keys
  {
    set n | n in names :: m[n].location
  }

  /** Distinct locations: as many as names. */
  lemma {:induction false} LocationsCount(m: map<string, SubroutineUniform>, names: set<string>)
    requires LocationsValid(m) && names <= m.Keys
    ensures |Locations(m, names)| == |names|
    decreases names
  {
    if names != {} {
      var n :| n in names;
      var rest := names - {n};
      LocationsCount(m, rest);
      assert Locations(m, names) == Locations(m, rest) + {m[n].location};
    }
  }

  /** The indices 0 .. k - 1 of an array of size k. */
  function Below(k: nat): set<int>
  {
    if k == 0 then {} else Below(k - 1) + {k - 1}
  }

  /** Below(k) holds exactly 0 .. k - 1, so k elements. */
  lemma {:induction false} BelowCount(k: nat)
    ensures forall l :: l in Below(k) <==> 0 <= l < k
    ensures |Below(k)| == k
  {
    if k > 0 {
      BelowCount(k - 1);
    }
  }

  /**
    With distinct locations in 0 .. n - 1 every cell of the index array is
    some uniform's location, so the array handed to the device is fully
    determined by the table: no cell keeps the unspecified initial contents.
  */
  lemma IndexArrayDetermined(m: map<string, SubroutineUniform>, a: seq<nat>, b: seq<nat>)
    requires LocationsValid(m) && IsIndexArray(m, a) && IsIndexArray(m, b)
    ensures a == b
  {
    var used := Locations(m, m.Keys);
    LocationsCount(m, m.Keys);
    BelowCount(|m|);
    assert used <= Below(|m|);
    SubsetOfSameSize(used, Below(|m|));
    forall l | 0 <= l < |a|
      ensures a[l] == b[l]
    {
      assert l in used;
      var n :| n in m.Keys && m[n].location == l;
    }
  }

  /** A subset as large as the set is the set. */
  lemma SubsetOfSameSize(a: set<int>, b: set<int>)
    requires a <= b && |a| == |b|
    ensures a == b
  {
    assert a * b == a && a + b == b && a - b == {};
    assert |b - a| == 0;
  }

  // ---------------------------------------------------------------------
  // The program object

  class Program {
    /** The configuration: OpenGL 4.0 types and subroutines are available. */
    const gl40: bool
    /** SHADER_STAGE_COUNT */
    const stageCount: nat

    var attributes: map<string, Variable>
    var uniforms: map<string, Uniform>
    var uniformBlocks: map<string, UniformBlock>
    var subroutineUniforms: seq<map<string, SubroutineUniform>>
    var subroutines: seq<map<string, Subroutine>>
    var infoLog: string
    var errors: set<ProgramError>
    /** The calls issued to the device, oldest first. */
    var log: seq<DeviceCall>
    /** The messages written to the error and debug logs, oldest first. */
    var messages: seq<Message>

    /** One table of subroutine uniforms and one of subroutines per stage; entries stored under their names; no built-ins. */
    ghost predicate Valid()
      reads this
    {
      && |subroutineUniforms| == stageCount && |subroutines| == stageCount
      && NamedVariables(attributes) && NamedUniforms(uniforms)
      && (forall n :: n in attributes ==> !HasGlPrefix(n))
      && (forall n :: n in uniforms ==> !HasGlPrefix(n))
    }

    /**
      The constructor: create the program object, attach the shaders (one
      outcome per shader: present and attached without error), link, and
      when the object is still fine, introspect. Bindings of default
      attribute and fragment-data locations are device calls and not
      modelled.
    */
    constructor (gl40: bool, stageCount: nat, created: bool, attached: seq<bool>,
                 linkStatus: bool, deviceLog: string,
                 activeAttributes: seq<ActiveAttribute>, activeUniforms: seq<ActiveUniform>,
                 activeBlocks: seq<ActiveBlock>,
                 activeSubroutineUniforms: seq<seq<ActiveSubroutineUniform>>,
                 activeSubroutines: seq<seq<ActiveSubroutine>>)
      requires |activeSubroutineUniforms| == stageCount && |activeSubroutines| == stageCount
      ensures Valid()
      ensures this.gl40 == gl40 && this.stageCount == stageCount
      ensures errors == ConstructionErrors(created, attached, linkStatus)
      ensures infoLog == if created && |deviceLog| > 10 then deviceLog else ""
      ensures log == []
      ensures !Ok() ==> (attributes == map[] && uniforms == map[] && uniformBlocks == map[] && messages == []
        && subroutineUniforms == seq(stageCount, _ => map[]) && subroutines == seq(stageCount, _ => map[]))
      ensures Ok() ==> (attributes == RecordAttributes(map[], activeAttributes)
        && UniformState(uniforms, messages) == RecordUniforms(UniformState(map[], []), activeUniforms, gl40)
        && uniformBlocks == RecordBlocks(map[], activeBlocks))
      ensures Ok() && gl40 ==> forall s :: 0 <= s < stageCount ==>
        (subroutineUniforms[s] == RecordSubroutineUniforms(map[], activeSubroutineUniforms[s])
         && subroutines[s] == RecordSubroutines(map[], activeSubroutines[s]))
      ensures Ok() && !gl40 ==>
        (subroutineUniforms == seq(stageCount, _ => map[]) && subroutines == seq(stageCount, _ => map[]))
    {
      this.gl40 := gl40;
      this.stageCount := stageCount;
      attributes := map[];
      uniforms := map[];
      uniformBlocks := map[];
      subroutineUniforms := seq(stageCount, _ => map[]);
      subroutines := seq(stageCount, _ => map[]);
      infoLog := "";
      errors := {};
      log := [];
      messages := [];
      new;
      if !created {
        errors := errors + {BadObject};
      } else {
        errors := AttachShaders(attached);
        var _ := Link(linkStatus, deviceLog);
        if Ok() {
          RetrieveAttributeInformation(activeAttributes);
          RetrieveUniformInformation(activeUniforms, activeBlocks, activeSubroutineUniforms, activeSubroutines);
        }
      }
    }

    /** The object is in a good state. */
    predicate Ok()
      reads this
    {
      errors == {}
    }

    /**
      link: the result is the link status the device reports; a failed link
      puts the program into the link-error state. An info log longer than ten
      characters replaces the stored one.
    */
    method Link(linkStatus: bool, deviceLog: string) returns (linked: bool)
      modifies this`errors, this`infoLog
      ensures linked == linkStatus
      ensures errors == if linkStatus then old(errors) else old(errors) + {ShaderLinkError}
      ensures infoLog == if |deviceLog| > 10 then deviceLog else old(infoLog)
    {
      if !linkStatus {
        errors := errors + {ShaderLinkError};
      }
      if |deviceLog| > 10 {
        infoLog := deviceLog;
      }
      linked := linkStatus;
    }

    /** retrieve_attribute_information: record every reported attribute that is not built in. */
    method RetrieveAttributeInformation(active: seq<ActiveAttribute>)
      requires Valid()
      modifies this`attributes
      ensures Valid()
      ensures attributes == RecordAttributes(old(attributes), active)
    {
      RecordAttributesNamed(attributes, active);
      RecordAttributesKeys(attributes, active);
      for i := 0 to |active|
        invariant attributes == RecordAttributes(old(attributes), active[..i])
      {
        assert active[..i + 1][..i] == active[..i];
        var a := active[i];
        if !HasGlPrefix(a.name) {
          attributes := attributes[a.name := Variable(a.name, a.location, a.size, a.glType)];
        }
      }
      assert active[..|active|] == active;
    }

    /** attribute_location: the stored location of the attribute, -1 for an unknown name. */
    function AttributeLocation(name: string): (r: int)
      reads this
      ensures name in attributes ==> r == attributes[name].location
      ensures name !in attributes ==> r == -1
    {
      if name in attributes then attributes[name].location else -1
    }

    /** After introspection a reported attribute's location is the one reported last for its name. */
    lemma ReportedAttributeLocation(s: seq<ActiveAttribute>, i: int)
      requires attributes == RecordAttributes(map[], s)
      requires 0 <= i < |s| && !HasGlPrefix(s[i].name)
      requires forall j :: i < j < |s| ==> s[j].name != s[i].name
      ensures AttributeLocation(s[i].name) == s[i].location
    {
      RecordAttributesLast(map[], s, i);
    }

    /** After introspection a name never reported, or built in, has location -1. */
    lemma UnreportedAttributeLocation(s: seq<ActiveAttribute>, name: string)
      requires attributes == RecordAttributes(map[], s)
      requires HasGlPrefix(name) || forall i :: 0 <= i < |s| ==> s[i].name != name
      ensures AttributeLocation(name) == -1
    {
      RecordAttributesKeys(map[], s);
    }

    /** A built-in name never has a location. */
    lemma BuiltInHasNoLocation(name: string)
      requires Valid() && HasGlPrefix(name)
      ensures AttributeLocation(name) == -1
    {
    }

    /**
      retrieve_uniform_information: the uniforms, then the uniform blocks,
      then, with OpenGL 4.0, the subroutine uniforms and subroutines of
      every stage. The subroutines are read with the corrected loop over
      0 .. n - 1; RetrieveSubroutinesAsWritten is the loop as written.
    */
    method RetrieveUniformInformation(activeUniforms: seq<ActiveUniform>, activeBlocks: seq<ActiveBlock>,
                                      activeSubroutineUniforms: seq<seq<ActiveSubroutineUniform>>,
                                      activeSubroutines: seq<seq<ActiveSubroutine>>)
      requires Valid()
      requires |activeSubroutineUniforms| == stageCount && |activeSubroutines| == stageCount
      modifies this`uniforms, this`messages, this`uniformBlocks, this`subroutineUniforms, this`subroutines
      ensures Valid()
      ensures UniformState(uniforms, messages) == RecordUniforms(UniformState(old(uniforms), old(messages)), activeUniforms, gl40)
      ensures uniformBlocks == RecordBlocks(old(uniformBlocks), activeBlocks)
      ensures gl40 ==> forall s :: 0 <= s < stageCount ==>
        subroutineUniforms[s] == RecordSubroutineUniforms(old(subroutineUniforms)[s], activeSubroutineUniforms[s])
        && subroutines[s] == RecordSubroutines(old(subroutines)[s], activeSubroutines[s])
      ensures !gl40 ==> subroutineUniforms == old(subroutineUniforms) && subroutines == old(subroutines)
    {
      RetrieveUniforms(activeUniforms);
      RetrieveUniformBlocks(activeBlocks);
      ghost var recordedUniforms, recordedMessages, recordedBlocks := uniforms, messages, uniformBlocks;
      if gl40 {
        for stage := 0 to stageCount
          invariant Valid()
          invariant uniforms == recordedUniforms && messages == recordedMessages && uniformBlocks == recordedBlocks
          invariant forall s :: 0 <= s < stage ==>
            subroutineUniforms[s] == RecordSubroutineUniforms(old(subroutineUniforms)[s], activeSubroutineUniforms[s])
            && subroutines[s] == RecordSubroutines(old(subroutines)[s], activeSubroutines[s])
          invariant forall s :: stage <= s < stageCount ==>
            subroutineUniforms[s] == old(subroutineUniforms)[s] && subroutines[s] == old(subroutines)[s]
        {
          RetrieveSubroutineUniforms(stage, activeSubroutineUniforms[stage]);
          RetrieveSubroutines(stage, activeSubroutines[stage]);
        }
      }
    }

    /** The uniform part of retrieve_uniform_information. */
    method RetrieveUniforms(active: seq<ActiveUniform>)
      requires Valid()
      modifies this`uniforms, this`messages
      ensures Valid()
      ensures UniformState(uniforms, messages) == RecordUniforms(UniformState(old(uniforms), old(messages)), active, gl40)
    {
      ghost var st0 := UniformState(uniforms, messages);
      RecordUniformsNamed(st0, active, gl40);
      for i := 0 to |active|
        invariant UniformState(uniforms, messages) == RecordUniforms(st0, active[..i], gl40)
        invariant NamedUniforms(uniforms) && forall n :: n in uniforms ==> !HasGlPrefix(n)
      {
        assert active[..i + 1][..i] == active[..i];
        var a := active[i];
        if !HasGlPrefix(a.name) {
          var created := MakeUniform(a, gl40);
          match created {
            case Some(u) =>
              uniforms := uniforms[a.name := u];
            case None =>
              messages := messages + [UnsupportedUniformType(a.name)];
          }
        }
      }
      assert active[..|active|] == active;
    }

    /** The uniform-block part of retrieve_uniform_information. */
    method RetrieveUniformBlocks(active: seq<ActiveBlock>)
      modifies this`uniformBlocks
      ensures uniformBlocks == RecordBlocks(old(uniformBlocks), active)
    {
      for i := 0 to |active|
        invariant uniformBlocks == RecordBlocks(old(uniformBlocks), active[..i])
      {
        assert active[..i + 1][..i] == active[..i];
        var b := active[i];
        uniformBlocks := uniformBlocks[b.name := UniformBlock(b.name, b.index, b.size, 0, false)];
      }
      assert active[..|active|] == active;
    }

    /** The subroutine uniforms of one stage. */
    method RetrieveSubroutineUniforms(stage: nat, active: seq<ActiveSubroutineUniform>)
      requires Valid() && stage < stageCount
      modifies this`subroutineUniforms
      ensures Valid()
      ensures subroutineUniforms == old(subroutineUniforms)[stage := RecordSubroutineUniforms(old(subroutineUniforms)[stage], active)]
    {
      var m := subroutineUniforms[stage];
      for i := 0 to |active|
        invariant m == RecordSubroutineUniforms(old(subroutineUniforms)[stage], active[..i])
      {
        assert active[..i + 1][..i] == active[..i];
        var a := active[i];
        m := m[a.name := SubroutineUniform(a.name, a.location, 0)];
      }
      assert active[..|active|] == active;
      subroutineUniforms := subroutineUniforms[stage := m];
    }

    /** The subroutines of one stage, querying the indices 0 .. n - 1. */
    method RetrieveSubroutines(stage: nat, active: seq<ActiveSubroutine>)
      requires Valid() && stage < stageCount
      modifies this`subroutines
      ensures Valid()
      ensures subroutines == old(subroutines)[stage := RecordSubroutines(old(subroutines)[stage], active)]
    {
      var m := subroutines[stage];
      for i := 0 to |active|
        invariant m == RecordSubroutines(old(subroutines)[stage], active[..i])
      {
        assert active[..i + 1][..i] == active[..i];
        var a := active[i];
        m := m[a.name := Subroutine(a.name, a.index)];
      }
      assert active[..|active|] == active;
      subroutines := subroutines[stage := m];
    }

    /**
      The subroutine loop as the source writes it: for i = 1 .. n it asks
      for subroutine i. Query n names no subroutine, so the name buffer
      still holds the name read by query n - 1, which is recorded again.
      With one subroutine the buffer was never written, and the entry is
      made under the indeterminate name `stale`.
    */
    method RetrieveSubroutinesAsWritten(stage: nat, active: seq<ActiveSubroutine>, stale: ActiveSubroutine)
      requires Valid() && stage < stageCount
      modifies this`subroutines
      ensures Valid()
      ensures subroutines == old(subroutines)[stage := RecordSubroutinesAsWritten(old(subroutines)[stage], active, stale)]
    {
      var m := subroutines[stage];
      var i := 1;
      while i <= |active|
        invariant 1 <= i <= |active| + 1
        invariant i <= |active| ==> m == RecordSubroutines(old(subroutines)[stage], active[1..i])
        invariant i == |active| + 1 ==> m == RecordSubroutinesAsWritten(old(subroutines)[stage], active, stale)
      {
        if i < |active| {
          assert active[1..i + 1][..i - 1] == active[1..i];
          var a := active[i];
          m := m[a.name := Subroutine(a.name, a.index)];
        } else if 2 <= i {
          var last := active[i - 1];
          assert active[1..i][..i - 2] == active[1..i - 1];
          assert active[1..i] == active[1..];
          m := m[last.name := Subroutine(last.name, last.index)];
        } else {
          m := m[stale.name := Subroutine(stale.name, stale.index)];
        }
        i := i + 1;
      }
      subroutines := subroutines[stage := m];
    }

    /** uniform_raw: the stored uniform, or none for an unknown name. */
    function UniformRaw(name: string): (r: Option<Uniform>)
      reads this
      ensures r.Some? <==> name in uniforms
      ensures r.Some? ==> r.value == uniforms[name]
    {
      if name in uniforms then Some(uniforms[name]) else None
    }

    /** After introspection a reported sampler or supported uniform is found, as created from its last report. */
    lemma ReportedUniformFound(s: seq<ActiveUniform>, msgs: seq<Message>, i: int)
      requires uniforms == RecordUniforms(UniformState(map[], msgs), s, gl40).uniforms
      requires 0 <= i < |s| && !HasGlPrefix(s[i].name)
      requires forall j :: i < j < |s| ==> s[j].name != s[i].name
      requires s[i].glType.GlSampler? || SupportedUniformType(s[i].glType, gl40)
      ensures UniformRaw(s[i].name).Some? && CreatedFrom(UniformRaw(s[i].name).value, s[i], gl40)
    {
      RecordUniformsLast(UniformState(map[], msgs), s, gl40, i);
    }

    /** A built-in name never refers to a uniform. */
    lemma BuiltInHasNoUniform(name: string)
      requires Valid() && HasGlPrefix(name)
      ensures UniformRaw(name) == None
    {
    }

    /**
      Setting a value through the pointer uniform_raw returns marks the
      uniform for update (the uniform classes are not part of this model;
      only this effect on the table is).
    */
    method MarkUniformUpdated(name: string)
      requires Valid()
      modifies this`uniforms
      ensures Valid()
      ensures name in old(uniforms) ==> uniforms == old(uniforms)[name := old(uniforms)[name].(updateRequired := true)]
      ensures name !in old(uniforms) ==> uniforms == old(uniforms)
    {
      if name in uniforms {
        uniforms := uniforms[name := uniforms[name].(updateRequired := true)];
      }
    }

    /**
      uniform_buffer: a known block moved to a different binding point is
      given that binding and marked dirty; the same binding changes nothing;
      an unknown name is logged.
    */
    method UniformBuffer(name: string, binding: nat)
      modifies this`uniformBlocks, this`messages
      ensures name in old(uniformBlocks) && old(uniformBlocks)[name].binding != binding ==>
        uniformBlocks == old(uniformBlocks)[name := old(uniformBlocks)[name].(binding := binding, updateRequired := true)]
      ensures name in old(uniformBlocks) && old(uniformBlocks)[name].binding == binding ==>
        uniformBlocks == old(uniformBlocks)
      ensures name in old(uniformBlocks) ==> messages == old(messages)
      ensures name !in old(uniformBlocks) ==> uniformBlocks == old(uniformBlocks) && messages == old(messages) + [MissingUniformBuffer(name)]
    {
      if name in uniformBlocks {
        if uniformBlocks[name].binding != binding {
          uniformBlocks := uniformBlocks[name := uniformBlocks[name].(binding := binding, updateRequired := true)];
        }
      } else {
        messages := messages + [MissingUniformBuffer(name)];
      }
    }

    /**
      uniform_subroutine: when both the subroutine uniform and the routine
      exist in the stage, the uniform selects the routine's index; otherwise
      the tables are unchanged and the lookup that failed is logged (both
      messages name the subroutine uniform).
    */
    method UniformSubroutine(stage: nat, name: string, routine: string)
      requires Valid() && stage < stageCount
      modifies this`subroutineUniforms, this`messages
      ensures Valid()
      ensures name in old(subroutineUniforms)[stage] && routine in subroutines[stage] ==>
        subroutineUniforms == old(subroutineUniforms)[stage := old(subroutineUniforms)[stage][name :=
          old(subroutineUniforms)[stage][name].(selectedRoutine := subroutines[stage][routine].index)]]
        && messages == old(messages)
      ensures name in old(subroutineUniforms)[stage] && routine !in subroutines[stage] ==>
        subroutineUniforms == old(subroutineUniforms) && messages == old(messages) + [MissingRoutine(name)]
      ensures name !in old(subroutineUniforms)[stage] ==>
        subroutineUniforms == old(subroutineUniforms) && messages == old(messages) + [MissingSubroutineUniform(name)]
    {
      var subr := subroutineUniforms[stage];
      if name in subr {
        if routine in subroutines[stage] {
          subroutineUniforms := subroutineUniforms[stage := subr[name := subr[name].(selectedRoutine := subroutines[stage][routine].index)]];
        } else {
          messages := messages + [MissingRoutine(name)];
        }
      } else {
        messages := messages + [MissingSubroutineUniform(name)];
      }
    }

    /** Every stage's subroutine uniform locations fit the index array bind_uniforms builds for it. */
    ghost predicate SubroutineLocationsValid()
      reads this
    {
      forall s :: 0 <= s < |subroutineUniforms| ==> LocationsValid(subroutineUniforms[s])
    }

    /**
      bind_uniforms: apply every dirty uniform and clear its flag, bind every
      dirty block and clear its flag, then hand every stage that has
      subroutine uniforms its index array. The source writes
      indices[location] without a check, so the locations must fit.
    */
    method BindUniforms() returns (applied: seq<DeviceCall>, bound: seq<DeviceCall>, selected: seq<DeviceCall>)
      requires Valid() && SubroutineLocationsValid()
      modifies this`uniforms, this`uniformBlocks, this`log
      ensures Valid()
      ensures uniforms == CleanUniforms(old(uniforms)) && uniformBlocks == CleanBlocks(old(uniformBlocks))
      ensures log == old(log) + applied + bound + selected
      ensures NoDuplicates(applied) && forall c :: c in applied <==> c in UniformCalls(old(uniforms))
      ensures (forall n :: n in old(uniforms) ==> !old(uniforms)[n].updateRequired) ==> applied == []
      ensures |bound| == |DirtyBlocks(old(uniformBlocks))| && forall c :: c in bound <==> c in BlockCalls(old(uniformBlocks))
      ensures IsSubroutineCalls(selected, subroutineUniforms)
    {
      var cleanUniforms, cleanBlocks;
      applied, cleanUniforms := ApplyUniformTable(uniforms);
      bound, cleanBlocks := BindBlockTable(uniformBlocks);
      selected := SelectSubroutines(subroutineUniforms);
      uniforms, uniformBlocks := cleanUniforms, cleanBlocks;
      log := log + applied + bound + selected;
    }

    /** A second bind_uniforms with no change in between applies no uniform and binds no block. */
    method BindUniformsTwice() returns (applied: seq<DeviceCall>, bound: seq<DeviceCall>)
      requires Valid() && SubroutineLocationsValid()
      modifies this`uniforms, this`uniformBlocks, this`log
      ensures applied == [] && bound == []
    {
      var _, _, _ := BindUniforms();
      CleanTablesIssueNothing(old(uniforms), old(uniformBlocks));
      var reapplied, rebound, _ := BindUniforms();
      applied, bound := reapplied, rebound;
    }
  }

  /** The uniform loop of bind_uniforms: one call per dirty uniform, and the table with the flags cleared. */
  method ApplyUniformTable(m: map<string, Uniform>) returns (applied: seq<DeviceCall>, cleaned: map<string, Uniform>)
    ensures cleaned == CleanUniforms(m)
    ensures NoDuplicates(applied) && forall c :: c in applied <==> c in UniformCalls(m)
    ensures (forall n :: n in m ==> !m[n].updateRequired) ==> applied == []
  {
    applied := [];
    cleaned := m;
    var todo := m.Keys;
    ghost var done: set<string> := {};
    while todo != {}
      invariant todo !! done && todo + done == m.Keys
      invariant cleaned.Keys == m.Keys
      invariant forall n :: n in todo ==> cleaned[n] == m[n]
      invariant forall n :: n in done ==> cleaned[n] == m[n].(updateRequired := false)
      invariant NoDuplicates(applied)
      invariant forall k :: 0 <= k < |applied| ==> applied[k].ApplyUniform? && applied[k].name in done
      invariant applied != [] ==> exists n :: n in done && m[n].updateRequired
      invariant forall c :: c in applied <==> exists n :: n in done && m[n].updateRequired && c == ApplyUniform(n, m[n].location)
      decreases todo
    {
      var n :| n in todo;
      if cleaned[n].updateRequired {
        applied := applied + [ApplyUniform(n, cleaned[n].location)];
        cleaned := cleaned[n := cleaned[n].(updateRequired := false)];
      }
      todo := todo - {n};
      done := done + {n};
    }
  }

  /** The binding call for a block. */
  function BindingOf(b: UniformBlock): DeviceCall
  {
    UniformBlockBinding(b.blockIndex, b.binding)
  }

  /** The binding calls issued when the blocks are visited in the given order. */
  function BindingCalls(m: map<string, UniformBlock>, order: seq<string>): seq<DeviceCall>
    requires forall i :: 0 <= i < |order| ==> order[i] in m
  {
    if order == [] then []
    else
      var b := m[order[|order| - 1]];
      BindingCalls(m, order[..|order| - 1]) + (if b.updateRequired then [BindingOf(b)] else [])
  }

  /** The calls are the bindings of the dirty blocks visited. */
  lemma {:induction false} BindingCallsMembers(m: map<string, UniformBlock>, order: seq<string>)
    requires forall i :: 0 <= i < |order| ==> order[i] in m
    ensures forall c :: c in BindingCalls(m, order) <==>
      exists n :: n in order && m[n].updateRequired && c == BindingOf(m[n])
  {
    if order != [] {
      var prefix := order[..|order| - 1];
      BindingCallsMembers(m, prefix);
      forall c
        ensures c in BindingCalls(m, order) <==> exists n :: n in order && m[n].updateRequired && c == BindingOf(m[n])
      {
        if exists n :: n in order && m[n].updateRequired && c == BindingOf(m[n]) {
          var n :| n in order && m[n].updateRequired && c == BindingOf(m[n]);
          if n != order[|order| - 1] {
            assert n in prefix;
          }
        }
        if c in BindingCalls(m, prefix) {
          var n :| n in prefix && m[n].updateRequired && c == BindingOf(m[n]);
          assert n in order;
        }
      }
    }
  }

  /** Visiting each block once issues one call per dirty block. */
  lemma {:induction false} BindingCallsCount(m: map<string, UniformBlock>, order: seq<string>)
    requires forall i :: 0 <= i < |order| ==> order[i] in m
    requires NoDuplicates(order)
    ensures |BindingCalls(m, order)| == |DirtyVisited(m, order)|
  {
    if order != [] {
      var prefix, last := order[..|order| - 1], order[|order| - 1];
      LastIsNew(order);
      BindingCallsCount(m, prefix);
      DirtyVisitedStep(m, prefix, last);
      assert order == prefix + [last];
    }
  }

  /** The dirty blocks among the visited names. */
  ghost function DirtyVisited(m: map<string, UniformBlock>, order: seq<string>): set<string>
  {
    set n | n in order && n in m && m[n].updateRequired
  }

  lemma DirtyVisitedStep(m: map<string, UniformBlock>, order: seq<string>, n: string)
    requires n in m && n !in order
    ensures DirtyVisited(m, order + [n]) == DirtyVisited(m, order) + (if m[n].updateRequired then {n} else {})
    ensures n !in DirtyVisited(m, order)
  {
  }

  /** The last element of a sequence without duplicates is not among the others, which have none either. */
  lemma LastIsNew<T>(s: seq<T>)
    requires |s| > 0 && NoDuplicates(s)
    ensures s[|s| - 1] !in s[..|s| - 1] && NoDuplicates(s[..|s| - 1])
  {
  }

  /** A visit order: the names of m outside todo, each once. */
  ghost predicate VisitOrder<V>(m: map<string, V>, order: seq<string>, todo: set<string>)
  {
    && todo <= m.Keys
    && (forall k :: 0 <= k < |order| ==> order[k] in m)
    && (forall n :: n in m ==> (n in order <==> n !in todo))
    && NoDuplicates(order)
  }

  /** Visiting one more name of todo extends the order. */
  lemma VisitStep<V>(m: map<string, V>, order: seq<string>, todo: set<string>, n: string)
    requires VisitOrder(m, order, todo) && n in todo
    ensures VisitOrder(m, order + [n], todo - {n})
    ensures (order + [n])[..|order|] == order
  {
    assert n !in order;
  }

  /** The block table with the flags of the blocks outside todo cleared. */
  ghost function BlocksCleanedOutside(m: map<string, UniformBlock>, todo: set<string>): map<string, UniformBlock>
  {
    map n | n in m :: if n in todo then m[n] else m[n].(updateRequired := false)
  }

  lemma CleanOneBlock(m: map<string, UniformBlock>, todo: set<string>, n: string)
    requires n in todo && todo <= m.Keys
    ensures BlocksCleanedOutside(m, todo)[n] == m[n]
    ensures BlocksCleanedOutside(m, todo - {n}) == BlocksCleanedOutside(m, todo)[n := m[n].(updateRequired := false)]
    ensures !m[n].updateRequired ==> BlocksCleanedOutside(m, todo - {n}) == BlocksCleanedOutside(m, todo)
    ensures BlocksCleanedOutside(m, {}) == CleanBlocks(m)
  {
  }

  /** The uniform-block loop of bind_uniforms: one binding per dirty block, and the table with the flags cleared. */
  method BindBlockTable(m: map<string, UniformBlock>) returns (bound: seq<DeviceCall>, cleaned: map<string, UniformBlock>)
    ensures cleaned == CleanBlocks(m)
    ensures |bound| == |DirtyBlocks(m)| && forall c :: c in bound <==> c in BlockCalls(m)
  {
    bound := [];
    cleaned := m;
    var todo := m.Keys;
    ghost var order: seq<string> := [];
    while todo != {}
      invariant VisitOrder(m, order, todo)
      invariant cleaned == BlocksCleanedOutside(m, todo)
      invariant bound == BindingCalls(m, order)
      decreases todo
    {
      var n :| n in todo;
      var b := cleaned[n];
      CleanOneBlock(m, todo, n);
      if b.updateRequired {
        bound := bound + [BindingOf(b)];
        cleaned := cleaned[n := b.(updateRequired := false)];
      }
      VisitStep(m, order, todo, n);
      order := order + [n];
      todo := todo - {n};
    }
    BindingCallsMembers(m, order);
    BindingCallsCount(m, order);
    assert DirtyVisited(m, order) == DirtyBlocks(m);
  }

  /** The subroutine part of bind_uniforms: one index array per stage that has subroutine uniforms. */
  method SelectSubroutines(stages: seq<map<string, SubroutineUniform>>) returns (selected: seq<DeviceCall>)
    requires forall s :: 0 <= s < |stages| ==> LocationsValid(stages[s])
    ensures IsSubroutineCalls(selected, stages)
  {
    selected := [];
    for s := 0 to |stages|
      invariant |selected| == |NonEmptyStages(stages, s)|
      invariant forall i :: 0 <= i < |selected| ==>
        selected[i].UniformSubroutines? && selected[i].stage == NonEmptyStages(stages, s)[i] && selected[i].stage < s
        && IsIndexArray(stages[selected[i].stage], selected[i].indices)
    {
      var m := stages[s];
      if 0 < |m| {
        var indices := StageIndices(m);
        selected := selected + [UniformSubroutines(s, indices[..])];
      }
    }
  }

  /** Every uniform recorded at a location in done holds its selected routine in the array. */
  ghost predicate Filled(m: map<string, SubroutineUniform>, done: set<string>, a: seq<nat>)
  {
    forall n :: n in done && n in m ==> 0 <= m[n].location < |a| && a[m[n].location] == m[n].selectedRoutine
  }

  /** Writing one uniform's routine at its location keeps the others, since locations are distinct. */
  lemma FilledStep(m: map<string, SubroutineUniform>, done: set<string>, a: seq<nat>, n: string)
    requires LocationsValid(m) && |a| == |m| && n in m && Filled(m, done, a)
    ensures 0 <= m[n].location < |a|
    ensures Filled(m, done + {n}, a[m[n].location := m[n].selectedRoutine])
  {
    var a' := a[m[n].location := m[n].selectedRoutine];
    forall n' | n' in done + {n} && n' in m
      ensures 0 <= m[n'].location < |a'| && a'[m[n'].location] == m[n'].selectedRoutine
    {
      if n' != n {
        DistinctLocations(m, n, n');
      }
    }
  }

  /** The index array of one stage: indices[location] = selected routine for every subroutine uniform. */
  method StageIndices(m: map<string, SubroutineUniform>) returns (indices: array<nat>)
    requires LocationsValid(m)
    ensures fresh(indices)
    ensures IsIndexArray(m, indices[..])
  {
    indices := new nat[|m|](_ => 0);
    var todo := m.Keys;
    while todo != {}
      invariant todo <= m.Keys
      invariant indices.Length == |m|
      invariant Filled(m, m.Keys - todo, indices[..])
      decreases todo
    {
      var n :| n in todo;
      var location, routine := m[n].location, m[n].selectedRoutine;
      FilledStep(m, m.Keys - todo, indices[..], n);
      indices[location] := routine;
      assert m.Keys - (todo - {n}) == (m.Keys - todo) + {n};
      todo := todo - {n};
    }
  }
}
