/**
 * The argument checks the native methods of the core library start with:
 * LIT_ENSURE_ARGS of lit.h, which reports a wrong argument count, and
 * lit_check_number of api.c, which demands a number at a position.
 *
 * A runtime error is kept as the data its message is formatted from; the
 * printf formatting itself is not modelled.
 */
module Api {
  import opened Lit
  import opened Wrappers

  /** The runtime errors a native method reports. */
  datatype ArgError =
    | WrongCount(expected: nat, got: nat)          // "expected %i argument, got %i"
    | NotANumber(position: nat, typeName: string)       // "expected a number as argument #%i, got a %s"
    | Message(text: string)                        // any other fixed message

  /** LIT_ENSURE_ARGS(count): an error exactly when the native got another number of arguments. */
  function EnsureArgs(argc: nat, count: nat): (r: Option<ArgError>)
    ensures r.None? <==> argc == count
    ensures r.Some? ==> r.value.WrongCount? && r.value.expected == count && r.value.got == argc
  {
    if argc != count then Some(WrongCount(count, argc)) else None
  }

  /**
   * lit_check_number(args, argc, id). The count is passed as a uint8_t, so
   * it is the argument count modulo 256; at or past it the error names the
   * missing argument "null", else typeName gives the name of its type.
   */
  function CheckNumber(args: seq<Value>, id: nat, typeName: Value -> string): (r: Result<Value, ArgError>)
    requires id < 256
    ensures r.Success? ==> id < |args| && IsNumber(args[id]) && r.value == args[id]
    ensures r.Failure? ==> r.error.NotANumber? && r.error.position == id
    ensures r.Failure? && id >= |args| % 256 ==> r.error.typeName == "null"
  {
    var argCount := |args| % 256;
    if argCount <= id || !IsNumber(args[id]) then
      Failure(NotANumber(id, if id >= argCount then "null" else typeName(args[id])))
    else
      Success(args[id])
  }

  /** With fewer than 256 arguments, the check passes exactly for a number at the position. */
  lemma CheckNumberAccepts(args: seq<Value>, id: nat, typeName: Value -> string)
    requires id < 256 && |args| < 256
    ensures CheckNumber(args, id, typeName).Success? <==> id < |args| && IsNumber(args[id])
    ensures !IsNumber(NULL_VALUE) && (id < |args| && !IsNumber(args[id]) ==>
      CheckNumber(args, id, typeName) == Failure(NotANumber(id, typeName(args[id]))))
  {
  }

  /** 256 arguments look like none: even a number in the first position is reported missing. */
  lemma CheckNumberWrapsCount(args: seq<Value>, typeName: Value -> string)
    requires |args| == 256 && IsNumber(args[0])
    ensures CheckNumber(args, 0, typeName) == Failure(NotANumber(0, "null"))
  {
  }
}
