# schism core: a Dafny model

This project models four parts of the schism rendering framework and proves
properties about them. Each part is one Dafny module, in one file.

- `math_common.dfy` (module `MathCommon`) covers the integer helpers of the
  math library (`src/scm/core/math/common.h`):
  - `sign`, `max`, `min`, `in_range`, `sqr` and `clamp` over mathematical integers;
  - the 32-bit bit tricks `is_power_of_two`, `bit_count`, `first_zero_bit`,
    `floor_log2` and `next_power_of_two`, over `bv32`;
  - the 64-bit `floor_log2` overload, over `bv64`.

  Each bit trick is proved against an independent definition: the
  population count, the number of trailing ones, the highest set bit, or the
  least power of two at or above the input.
- `data_types.dfy` (module `DataTypes`) covers the table of data-type names
  and its bounds-checked lookup `type_string`. The model has both
  configurations: with OpenGL 4.0 and without.
- `accum_timer.dfy` (module `AccumTimer`) covers the accumulating CUDA timer.
  - It is a class with the timer's fields, plus the three fields inherited
    from `accum_timer_base`.
  - A ghost sequence of the samples collected since the last reset ties the
    accumulators to their meaning. `Valid()` says that the accumulators are
    their sums and that the count is their number.
  - `update` is proved to produce the truncating average of exactly those samples.
  - The constructor sets the finished flag and then calls `reset`, which
    clears it. A new timer therefore ignores `start` and `stop` until a
    `collect` succeeds or `force_collect` is called. `Timer.constructor`
    states this.
  - When either CUDA event cannot be created the constructor throws.
    `NewTimer` takes the two creation results and returns no timer in that
    case.
- `program.dfy` (module `ShaderProgram`) covers the bookkeeping of a GL shader
  program (`shader_objects/program.cpp`). It is a class over name-keyed maps,
  one per kind of entry: attributes, uniforms, uniform blocks, and, per
  shader stage, subroutine uniforms and subroutines.
  - The device is not modelled. What introspection reads from the device is
    an input sequence of records. The calls the program issues to the device
    are appended to `log`. The program's error and debug log lines are
    appended to `messages`.
  - Introspection is specified by folds over the reported records
    (`RecordAttributes`, `RecordUniforms` and the other `Record*`
    functions). Lemmas about the folds cover:
    - which names end up in a table;
    - that the last report of a name wins;
    - that `gl_` built-ins are never recorded;
    - that samplers become `INT` uniforms;
    - which types are rejected, and that each rejection is logged.
  - `bind_uniforms` is specified against the dirty flags:
    - it applies exactly the uniforms marked for update, each once;
    - it rebinds exactly the blocks marked for update;
    - it issues one subroutine selection per non-empty stage, carrying that
      stage's index array;
    - it leaves every flag clean, so a second call applies no uniform and
      rebinds no block. Subroutine selections carry no flag and are sent
      again on every call.

  The lookups return `-1` or nothing for unknown names. The setters log
  unknown names instead of failing.

## Model

Source paths below are relative to the repository root. The four files are:

- `src/scm/core/math/common.h`
- `scm_gl_core/src/scm/gl_core/data_types.cpp`
- `scm_cl_core/src/scm/cl_core/cuda/accum_timer.cpp`
- `scm_gl_core/src/scm/gl_core/shader_objects/program.cpp`

| member | source | states |
|---|---|---|
| MathCommon.Sign | src/scm/core/math/common.h:30-34 | the result is -1 or 1, -1 exactly for negative values (so sign(0) is 1), and sign(v)*v is \|v\| |
| MathCommon.Max | src/scm/core/math/common.h:36-41 | the result is one of the two arguments and is at least both |
| MathCommon.Min | src/scm/core/math/common.h:43-48 | the result is one of the two arguments and is at most both |
| MathCommon.InRange | src/scm/core/math/common.h:62-68 | true exactly when a <= x <= b, both bounds included |
| MathCommon.InRangeIsFixpoint | src/scm/core/math/common.h:62-82 | x is in range exactly when max(x, a) and min(x, b) both return x; for a <= b, exactly when clamp returns x, and a clamped value is always in range |
| MathCommon.Sqr | src/scm/core/math/common.h:70-74 | the square is never negative and is the same for a and -a |
| MathCommon.SqrMonotone | src/scm/core/math/common.h:70-74 | squaring preserves order on non-negative values |
| MathCommon.Clamp | src/scm/core/math/common.h:76-82 | for lo <= hi the result lies in [lo, hi]; a value already in range is returned unchanged; a value above hi gives hi |
| MathCommon.ClampIsMaxMin | src/scm/core/math/common.h:76-82 | for lo <= hi, clamp equals max(lo, min(v, hi)), and clamping twice is clamping once |
| MathCommon.IsPowerOfTwoIff | src/scm/core/math/common.h:115-122 | `!(x & (x-1))` holds exactly for 0 and for the 32 powers of two |
| MathCommon.BitCount | src/scm/core/math/common.h:125-139 | the corrected bit_count returns the number of set bits of the word |
| MathCommon.BitCountFolds | src/scm/core/math/common.h:134-138 | the octal-mask folding followed by `% 63` yields the population count, for every 32-bit word |
| MathCommon.BitCountAsWritten | src/scm/core/math/common.h:131-138 | bit_count as written, with the arithmetic shift of the int reference, returns the population count plus one when bit 31 is set |
| MathCommon.BitCountAsWrittenOvercounts | src/scm/core/math/common.h:131-138 | the as-written folding with sign-extending shifts yields popcount(x) + bit31(x) |
| MathCommon.BitCountAsWrittenCounterexample | src/scm/core/math/common.h:131-138 | 0x80000000 has one set bit, but the as-written expression yields 2 |
| MathCommon.FirstZeroBit | src/scm/core/math/common.h:141-152 | the result is the number of trailing one bits, which is the position of the lowest zero bit; it is at most 32, and 32 only for the all-ones word |
| MathCommon.PopCountBelowFirstZero | src/scm/core/math/common.h:149-151 | `(~x & -~x) - 1` is a mask with as many bits as x has trailing ones |
| MathCommon.TrailingOnesAllOnes | src/scm/core/math/common.h:149-151 | there are at most 32 trailing ones, 32 only for the all-ones word, and only then does the mask have bit 31 set |
| MathCommon.FirstZeroBitAsWritten | src/scm/core/math/common.h:147-151 | first_zero_bit as written (through the as-written bit_count) is correct except for the all-ones word, where it returns 33 |
| MathCommon.FirstZeroBitAsWrittenCounterexample | src/scm/core/math/common.h:147-151 | for 0xFFFFFFFF the lowest zero bit is at position 32, yet the as-written count of the mask is 33 |
| MathCommon.FloorLog2 | src/scm/core/math/common.h:154-170 | for x = 0 the result is -1; otherwise it is the position of the highest set bit (2^r <= x < 2^(r+1)) |
| MathCommon.HighestSetBitIsHighest | src/scm/core/math/common.h:154-170 | every non-zero word has a highest set bit (the reference for floor_log2) |
| MathCommon.HighestSetBitBounds | src/scm/core/math/common.h:154-170 | the highest set bit p bounds the word: 2^p <= x, and x < 2^(p+1) below the top bit |
| MathCommon.HighestSetBitUnique | src/scm/core/math/common.h:154-170 | a word has only one highest set bit, so floor_log2 has one correct answer |
| MathCommon.FloorLog2U64 | src/scm/core/math/common.h:172-184 | the 64-bit overload: -1 for 0, otherwise the position of the highest set bit of the 64-bit word |
| MathCommon.FloorLog2Below32 | src/scm/core/math/common.h:177-183 | on words below 2^32 the last five steps of the 64-bit overload compute the highest set bit, which is then below 32 |
| MathCommon.HighHalfPosition | src/scm/core/math/common.h:176 | when the high half has its highest set bit at p, the 64-bit word has it at p + 32 |
| MathCommon.HighestSetBitBoundsU64 | src/scm/core/math/common.h:172-184 | the highest set bit of a 64-bit word bounds it from both sides |
| MathCommon.HighestSetBitUniqueU64 | src/scm/core/math/common.h:172-184 | a 64-bit word has only one highest set bit |
| MathCommon.NextPowerOfTwo | src/scm/core/math/common.h:186-202 | for 1 <= x <= 2^31 the result is the least power of two at or above x; a power of two is returned unchanged; 0 and values above 2^31 wrap to 0 |
| MathCommon.LeastPowerOfTwoIsLeast | src/scm/core/math/common.h:186-202 | the least power of two at or above x lies below every other power of two at or above x |
| DataTypes.TypeCount | scm_gl_core/src/scm/gl_core/data_types.cpp:8-31 | the table has 43 names with OpenGL 4.0 and 30 without, one per data type |
| DataTypes.TypeString | scm_gl_core/src/scm/gl_core/data_types.cpp:38-43 | for a data type in range (the asserted precondition) the result is a name from the table; it is "UNKNOWN" exactly for type 0 and "UBYTE" exactly for the last type |
| DataTypes.UnknownAndUbyteOnce | scm_gl_core/src/scm/gl_core/data_types.cpp:8-31 | "UNKNOWN" and "UBYTE" each occur once in the table, at the first and the last index |
| DataTypes.TableLayout | scm_gl_core/src/scm/gl_core/data_types.cpp:8-31 | in both configurations "UNKNOWN" comes first, the thirteen float names occupy types 1..13, and "UBYTE" comes last |
| DataTypes.DoubleBlockShift | scm_gl_core/src/scm/gl_core/data_types.cpp:15-19 | with OpenGL 4.0 the thirteen double names occupy types 14..26, and every later name moves up by 13; the first 14 names are identical in both configurations |
| AccumTimer.TruncDiv | scm_cl_core/src/scm/cl_core/cuda/accum_timer.cpp:159-169 | C++ integer division truncates toward zero: the quotient of a non-negative total is its floor, and that of a negative total is its ceiling |
| AccumTimer.TruncDivOfMultiple | scm_cl_core/src/scm/cl_core/cuda/accum_timer.cpp:166-169 | dividing n*v by n gives back v, for either sign of v |
| AccumTimer.SumAppend | scm_cl_core/src/scm/cl_core/cuda/accum_timer.cpp:100-110 | adding one sample to the accumulators is the sum of the extended sample sequence |
| AccumTimer.SumWithin | scm_cl_core/src/scm/cl_core/cuda/accum_timer.cpp:100-110 | when every sample lies in [lo, hi], each accumulated component lies in [n*lo, n*hi] |
| AccumTimer.SumOfConstant | scm_cl_core/src/scm/cl_core/cuda/accum_timer.cpp:100-110 | n equal samples accumulate to n times that sample, component by component |
| AccumTimer.AverageWithin | scm_cl_core/src/scm/cl_core/cuda/accum_timer.cpp:159-169 | the truncating average of a total between count*lo and count*hi lies in [lo, hi] |
| AccumTimer.AverageOfSamplesWithin | scm_cl_core/src/scm/cl_core/cuda/accum_timer.cpp:159-169 | the average update computes from samples within [lo, hi] lies within [lo, hi] in every component |
| AccumTimer.AverageOfConstant | scm_cl_core/src/scm/cl_core/cuda/accum_timer.cpp:159-169 | the average of n equal samples is that sample |
| AccumTimer.Timer.constructor | scm_cl_core/src/scm/cl_core/cuda/accum_timer.cpp:29-40 | when both events are created: every accumulator and average is zero, no sample is recorded and no call made; the finished flag set at line 31 is cleared again by reset at line 35 |
| AccumTimer.NewTimer | scm_cl_core/src/scm/cl_core/cuda/accum_timer.cpp:41-47 | no timer results exactly when the start or the stop event cannot be created (the constructor throws); otherwise a new timer in the constructor's initial state |
| AccumTimer.Timer.Start | scm_cl_core/src/scm/cl_core/cuda/accum_timer.cpp:56-67 | only when the last interval was collected: start the CPU timer, record the start event on the stream and remember the stream; otherwise nothing changes |
| AccumTimer.Timer.Stop | scm_cl_core/src/scm/cl_core/cuda/accum_timer.cpp:69-78 | only when the last interval was collected: record the stop event on the remembered stream and stop the CPU timer; otherwise no call is made |
| AccumTimer.Timer.Collect | scm_cl_core/src/scm/cl_core/cuda/accum_timer.cpp:80-119 | a stop event not yet ready clears the finished flag and changes nothing else; a completed one synchronises the stream, adds the sample (ns, CPU times) to every accumulator, counts it and sets the flag; any other query result is logged and changes no accumulator |
| AccumTimer.Timer.ForceCollect | scm_cl_core/src/scm/cl_core/cuda/accum_timer.cpp:121-149 | synchronises the stream and adds the sample unconditionally, setting the finished flag |
| AccumTimer.Timer.AddSample | scm_cl_core/src/scm/cl_core/cuda/accum_timer.cpp:96-113 | the shared sample step: the last times become the sample, the accumulated times grow by it, the count by one, and the invariant holds |
| AccumTimer.Timer.Update | scm_cl_core/src/scm/cl_core/cuda/accum_timer.cpp:151-174 | below the interval only the counter advances; on reaching it the counter restarts, the averages become the truncating averages of the samples since the last reset (zero when there are none), and the accumulators are reset |
| AccumTimer.Timer.Reset | scm_cl_core/src/scm/cl_core/cuda/accum_timer.cpp:176-186 | clears the base accumulators, the detailed accumulators and the finished flag; the averages and the last detailed time stay |
| ShaderProgram.AttachShaders | scm_gl_core/src/scm/gl_core/shader_objects/program.cpp:43-57 | a missing shader or a failed attach puts the program into the invalid-value state; otherwise no error |
| ShaderProgram.Program.constructor | scm_gl_core/src/scm/gl_core/shader_objects/program.cpp:29-83 | a failed create gives the bad state and no link; otherwise attach, then link, then (only if the state is still fine) introspection fills every table from the reported records, subroutine tables only with OpenGL 4.0 and by the corrected subroutine loop |
| ShaderProgram.Program.Link | scm_gl_core/src/scm/gl_core/shader_objects/program.cpp:103-132 | returns the link status; a failed link adds the link-error state; an info log longer than 10 characters replaces the stored one |
| ShaderProgram.Program.RetrieveAttributeInformation | scm_gl_core/src/scm/gl_core/shader_objects/program.cpp:218-260 | the attribute table becomes the fold of the reported attributes over the old table, and no built-in is recorded |
| ShaderProgram.RecordAttributesKeys | scm_gl_core/src/scm/gl_core/shader_objects/program.cpp:234-257 | a name is in the attribute table exactly when it was there before or was reported without the `gl_` prefix |
| ShaderProgram.RecordAttributesLast | scm_gl_core/src/scm/gl_core/shader_objects/program.cpp:249-256 | the last report of a non-built-in name determines its entry: name, location, size and type |
| ShaderProgram.RecordAttributesNamed | scm_gl_core/src/scm/gl_core/shader_objects/program.cpp:252-255 | every entry of the attribute table is stored under its own name |
| ShaderProgram.Program.AttributeLocation | scm_gl_core/src/scm/gl_core/shader_objects/program.cpp:262-270 | the stored location of a known attribute, -1 for an unknown name |
| ShaderProgram.Program.ReportedAttributeLocation | scm_gl_core/src/scm/gl_core/shader_objects/program.cpp:262-270 | after introspection, the location of a reported non-built-in attribute is the one its last report gave |
| ShaderProgram.Program.UnreportedAttributeLocation | scm_gl_core/src/scm/gl_core/shader_objects/program.cpp:262-270 | after introspection, a built-in or unreported name has location -1 |
| ShaderProgram.Program.BuiltInHasNoLocation | scm_gl_core/src/scm/gl_core/shader_objects/program.cpp:249 | in a valid program every `gl_` name has location -1 |
| ShaderProgram.Program.RetrieveUniformInformation | scm_gl_core/src/scm/gl_core/shader_objects/program.cpp:285-511 | uniforms, then uniform blocks, then (with OpenGL 4.0) each stage's subroutine uniforms and subroutines are recorded, the subroutines by the corrected loop; without OpenGL 4.0 the subroutine tables are untouched |
| ShaderProgram.Program.RetrieveUniforms | scm_gl_core/src/scm/gl_core/shader_objects/program.cpp:293-363 | uniforms and messages become the fold of the reported uniforms over the old state |
| ShaderProgram.RecordUniformsOrigin | scm_gl_core/src/scm/gl_core/shader_objects/program.cpp:317-360 | every uniform in the table was there before or was created from a report: a sampler as an INT with the sampler flag, a supported type as itself, never a built-in |
| ShaderProgram.RecordUniformsLast | scm_gl_core/src/scm/gl_core/shader_objects/program.cpp:317-360 | the last report of a non-built-in name with a sampler or supported type determines its entry |
| ShaderProgram.RecordUniformsMessages | scm_gl_core/src/scm/gl_core/shader_objects/program.cpp:352-354 | the messages grow by one "unsupported uniform type" message per non-built-in report of an unsupported type, in report order |
| ShaderProgram.UnsupportedNotRecorded | scm_gl_core/src/scm/gl_core/shader_objects/program.cpp:352-360 | a name whose every report has an unsupported type is never added to the table |
| ShaderProgram.RecordUniformsNamed | scm_gl_core/src/scm/gl_core/shader_objects/program.cpp:358-360 | every uniform is stored under its own name |
| ShaderProgram.Program.RetrieveUniformBlocks | scm_gl_core/src/scm/gl_core/shader_objects/program.cpp:364-389 | the block table becomes the fold of the reported blocks |
| ShaderProgram.RecordBlocksLast | scm_gl_core/src/scm/gl_core/shader_objects/program.cpp:385-387 | the last report of a block name determines its entry: index and size, binding 0, clean |
| ShaderProgram.Program.RetrieveSubroutineUniforms | scm_gl_core/src/scm/gl_core/shader_objects/program.cpp:393-447 | only the given stage's subroutine uniform table changes, to the fold of that stage's reports |
| ShaderProgram.RecordSubroutineUniformsLast | scm_gl_core/src/scm/gl_core/shader_objects/program.cpp:416-417 | the last report of a subroutine uniform name determines its entry: its location, with routine 0 selected |
| ShaderProgram.Program.RetrieveSubroutines | scm_gl_core/src/scm/gl_core/shader_objects/program.cpp:448-481 | the corrected loop over subroutines 0..n-1: only the given stage's subroutine table changes, to the fold of all its reports |
| ShaderProgram.RecordSubroutinesKeys | scm_gl_core/src/scm/gl_core/shader_objects/program.cpp:476-477 | a name is in the subroutine table exactly when it was there before or was reported |
| ShaderProgram.Program.RetrieveSubroutinesAsWritten | scm_gl_core/src/scm/gl_core/shader_objects/program.cpp:459-479 | the loop as written (i from 1 to n): with two or more reports the stage's table becomes the fold of all reports but the first; with one report it gains a single entry under the indeterminate name left in the uninitialised buffer |
| ShaderProgram.FirstSubroutineMissing | scm_gl_core/src/scm/gl_core/shader_objects/program.cpp:459 | the first reported subroutine, reported once, is present in the corrected table; as written it is missing, unless there is only one subroutine and the indeterminate name happens to equal it |
| ShaderProgram.FirstSubroutineMissingExample | scm_gl_core/src/scm/gl_core/shader_objects/program.cpp:459-479 | subroutines "shade" (0) and "tint" (1): as written only "tint" is recorded; corrected, both are |
| ShaderProgram.Program.UniformRaw | scm_gl_core/src/scm/gl_core/shader_objects/program.cpp:513-523 | the stored uniform for a known name, nothing for an unknown one |
| ShaderProgram.Program.ReportedUniformFound | scm_gl_core/src/scm/gl_core/shader_objects/program.cpp:513-523 | after introspection, a reported non-built-in uniform of an accepted type is found, as created from its last report |
| ShaderProgram.Program.BuiltInHasNoUniform | scm_gl_core/src/scm/gl_core/shader_objects/program.cpp:317 | in a valid program no `gl_` name is found |
| ShaderProgram.Program.MarkUniformUpdated | scm_gl_core/src/scm/gl_core/shader_objects/program.cpp:166-168 | marks a known uniform for update (the flag bind_uniforms reads); an unknown name changes nothing |
| ShaderProgram.Program.UniformBuffer | scm_gl_core/src/scm/gl_core/shader_objects/program.cpp:525-539 | a known block with a new binding takes it and is marked for update; the same binding changes nothing; an unknown name only logs "unable to find uniform buffer" |
| ShaderProgram.RebindIsIssued | scm_gl_core/src/scm/gl_core/shader_objects/program.cpp:531-533 | after uniform_buffer changes a binding, the next bind_uniforms issues that block's binding call |
| ShaderProgram.MarkedIsApplied | scm_gl_core/src/scm/gl_core/shader_objects/program.cpp:166-167 | a uniform marked for update is applied by the next bind_uniforms |
| ShaderProgram.Program.UniformSubroutine | scm_gl_core/src/scm/gl_core/shader_objects/program.cpp:541-560 | known uniform and known routine: the routine's index is selected; a known uniform with an unknown routine logs "unable to find routine" under the uniform's name; an unknown uniform logs "unable to find subroutine"; only the named stage changes |
| ShaderProgram.SelectedRoutineIsIssued | scm_gl_core/src/scm/gl_core/shader_objects/program.cpp:205-210 | after a selection, the index array of the next bind_uniforms holds the selected routine at the uniform's location |
| ShaderProgram.Program.BindUniforms | scm_gl_core/src/scm/gl_core/shader_objects/program.cpp:153-216 | exactly the uniforms marked for update are applied, each once; exactly the marked blocks are rebound to their bindings; each non-empty stage gets one subroutine call with its index array; every flag is cleared; the calls go to the log in that order |
| ShaderProgram.Program.BindUniformsTwice | scm_gl_core/src/scm/gl_core/shader_objects/program.cpp:162-194 | a second bind_uniforms applies no uniform and rebinds no block |
| ShaderProgram.ApplyUniformTable | scm_gl_core/src/scm/gl_core/shader_objects/program.cpp:162-182 | the uniform loop applies each marked uniform once and no other, clears every flag, and applies nothing when nothing is marked |
| ShaderProgram.BindBlockTable | scm_gl_core/src/scm/gl_core/shader_objects/program.cpp:183-194 | the block loop issues one binding call per marked block (block index and binding) and no other, and clears every flag |
| ShaderProgram.BindingCallsMembers | scm_gl_core/src/scm/gl_core/shader_objects/program.cpp:186-193 | the calls of a visit are exactly the bindings of the marked blocks visited |
| ShaderProgram.BindingCallsCount | scm_gl_core/src/scm/gl_core/shader_objects/program.cpp:186-193 | a visit without repeats issues as many calls as it visits marked blocks |
| ShaderProgram.CleanTablesIssueNothing | scm_gl_core/src/scm/gl_core/shader_objects/program.cpp:165-193 | cleaned tables have no flag set and lead to no call, and cleaning is idempotent |
| ShaderProgram.CleanKeepsEntries | scm_gl_core/src/scm/gl_core/shader_objects/program.cpp:166-168 | clearing the flags keeps every uniform and changes nothing but its flag |
| ShaderProgram.SelectSubroutines | scm_gl_core/src/scm/gl_core/shader_objects/program.cpp:196-212 | stages are visited in order; a stage with subroutine uniforms gets one call carrying its index array; an empty stage gets none |
| ShaderProgram.NonEmptyStagesMembers | scm_gl_core/src/scm/gl_core/shader_objects/program.cpp:197-211 | the calls go to exactly the stages with at least one subroutine uniform |
| ShaderProgram.NonEmptyStagesIncreasing | scm_gl_core/src/scm/gl_core/shader_objects/program.cpp:197 | the calls go to the stages in increasing order |
| ShaderProgram.StageIndices | scm_gl_core/src/scm/gl_core/shader_objects/program.cpp:200-208 | a fresh array with one entry per subroutine uniform, holding at each uniform's location its selected routine |
| ShaderProgram.DistinctLocations | scm_gl_core/src/scm/gl_core/shader_objects/program.cpp:206-207 | under valid locations, two subroutine uniforms never write the same slot |
| ShaderProgram.IndexArrayDetermined | scm_gl_core/src/scm/gl_core/shader_objects/program.cpp:200-208 | under valid locations the locations fill every slot, so the index array is fully determined and the array's initial contents do not matter |

## Left out

- Device calls are not modelled. This covers GL (create, attach, link,
  introspection queries, glUseProgram, the binding guard, gl_assert) and CUDA
  (events, stream synchronisation). Their results are inputs and their
  effects are entries in a call log.
- Attribute and fragment-data location binding in the constructor
  (program.cpp:60-68) is a pair of device calls with no effect on the
  program's tables. It is not modelled. Neither is the constructor's list of
  attached shader objects (`_shaders`).
- retrieve_fragdata_information (program.cpp:272-283) does nothing besides
  a device check. It is not modelled.
- The query for the routines compatible with a subroutine uniform
  (program.cpp:420-443) only reads names into a local. It is not modelled.
- The uniform classes (`uniform_1f` and the rest, `apply_value`, value
  setters) are not part of this model.
  - A uniform is held by value, with its kind, location, size and flag.
  - The program's shared pointers to uniforms, and the aliasing they allow,
    are not modelled.
  - Applying a uniform is one `ApplyUniform` call.
  - `MarkUniformUpdated` stands for the value setters' effect on the flag.
- Subroutine uniform locations that are distinct and lie in 0..n-1 (n the
  stage's number of subroutine uniforms) are a precondition of bind_uniforms
  (`SubroutineLocationsValid`). The source writes through `indices[l]`
  unchecked. An array subroutine uniform occupies several consecutive
  locations, so with arrays `l` can reach past the map's size, which is not
  modelled.
- The out-of-range query the as-written subroutine loop makes last leaves
  the name buffer as the previous query filled it. For two or more
  subroutines the last one is then recorded again. For a single subroutine
  the buffer was never filled. Reading it is undefined behaviour, and the
  source still inserts an entry under whatever name it holds. The model
  takes that name and its index as an input (`stale`).
- ShaderProgram.Program.constructor, ShaderProgram.Program.RetrieveUniformInformation:
  they build the subroutine tables with the corrected loop over subroutines
  0..n-1 (`RetrieveSubroutines`), not with the loop as written
  (`RetrieveSubroutinesAsWritten`). A program built from the source lacks
  subroutine 0 of every stage.
- The type conversion from GL enumerants to data types lives in other files
  (from_gl_data_type, is_sampler_type). `GlType` is the reported type after
  that conversion.
- Floating point: `fract`, `round`, `lerp`, `shoothstep`, `rad2deg` and
  `deg2rad` in common.h work on floats and are not modelled. The
  float-to-nanosecond conversion in collect is an input (`ns`).
- Timer overflow: accumulators are unbounded integers, so the 64-bit
  nanosecond sums and the `unsigned` count do not wrap.
- The bodies of accum_timer_base::reset and the timer's other declarations
  are not part of this model. Reset is taken to zero the three base fields.
  A new timer's average, update counter and last detailed time
  (`_detailed_last_time`, which the constructor never sets) are taken to
  start at zero.
- The defaults of program.h's record types are not part of this model. A new
  block has binding 0 and no update pending, a subroutine uniform has routine
  0 selected, and a new uniform has no update pending.
- SHADER_STAGE_COUNT and TYPE_COUNT are not fixed here.
  - The stage count is a constructor parameter.
  - TYPE_COUNT is defined in data_types.h, which is not part of this model.
    It is taken to be the table's length.
- Signed overflow in first_zero_bit (common.h:151) is not modelled as
  undefined behaviour. For x = 0x7FFFFFFF, `~x` is INT_MIN, so both `-i`
  and the subtraction `(i & -i) - 1` overflow a signed int. The model
  computes on 32-bit words, where both wrap around.
- ShaderProgram.Program.BindUniforms: the calls of the uniform loop and the
  block loop are stated as a set without repeats (and a count), not in the
  name order std::map iterates in.
- ShaderProgram.ApplyUniformTable: states which calls are issued, not their
  lexicographic order.
- ShaderProgram.BindBlockTable: states which calls are issued and how many,
  not their lexicographic order.
- MathCommon.Sign, MathCommon.Max, MathCommon.Min, MathCommon.InRange,
  MathCommon.Sqr, MathCommon.Clamp: stated for integers only. The templates
  also serve floats, and `sqr` may overflow a fixed-width type.
- MathCommon.IsPowerOfTwoIff: stated for 32-bit words. The template accepts
  any unsigned integer type.

## Findings

| source | as written | input that shows it | evidently intended | confidence | as-written member | corrected member |
|---|---|---|---|---|---|---|
| src/scm/core/math/common.h:131-138 | the word is read through an `int&`, so `i >> 1` and `i >> 2` shift in copies of the sign bit | x = 0x80000000 yields 2 (popcount 1); any word with bit 31 set is counted one too high | the population count, with logical shifts | not executed | MathCommon.BitCountAsWrittenCounterexample | MathCommon.BitCount |
| src/scm/core/math/common.h:147-151 | first_zero_bit counts the mask `(~x & -~x) - 1` with the as-written bit_count | x = 0xFFFFFFFF: the mask is all ones and the result is 33 | 32, the number of trailing ones (no zero bit in the word) | not executed | MathCommon.FirstZeroBitAsWrittenCounterexample | MathCommon.FirstZeroBit |
| scm_gl_core/src/scm/gl_core/shader_objects/program.cpp:459-466 | the subroutine loop runs `for (int i = 1; i <= act_routines; ++i)` and queries subroutine i | two active subroutines "shade" (0) and "tint" (1): query 2 is out of range, only "tint" is recorded, and uniform_subroutine cannot select "shade"; with a single subroutine the entry is made under the name left in an uninitialised buffer | query subroutines 0..act_routines-1 | not executed | ShaderProgram.FirstSubroutineMissingExample | ShaderProgram.FirstSubroutineMissing |
