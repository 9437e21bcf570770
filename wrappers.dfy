/** Failure-carrying results shared by every module of the model. */
module Wrappers {

  datatype Option<+T> = None | Some(value: T)

  /** What a parameter descriptor is: used in error payloads. */
  datatype ParamKind = ArgumentKind | FlagKind | OptionKind

  /** Which helper setting was being applied when a lookup failed. */
  datatype Setting = DefaultSetting | DescriptionSetting | OptionsSetting

  /**
   * Every exception the core raises, one constructor per distinct message.
   * Payloads carry the names the message interpolates.
   */
  datatype Error =
    // descriptor construction and validation
    | InvalidName(kind: ParamKind)
    | RequiredArgumentWithDefault(argument: string)
    | RequiredOptionWithOptionalValue(option: string)
    // command definition
    | DuplicateParameter(kind: ParamKind, parameter: string)
    | ArgumentAfterRepeating
    | RequiredArgumentAfterOptional
    | EmptyCommandName
    | HandlerNotSet(command: string)
    | NamespaceRestriction(operation: NamespaceOperation)
    // signature parsing
    | EmptySignature
    | MissingCommandName
    | UnrecognizedToken(token: string)
    // input resolution
    | TooManyArgs(command: string)
    | MissingRequiredArgument(argument: string, command: string)
    | MissingRequiredOption(option: string, command: string)
    | TooManyOptions(command: string)
    // helpers
    | UnregisteredParameter(setting: Setting, parameter: string)
    | FlagRejects(setting: Setting, flag: string)
    | OptionsNotAnArray
    // helpers: a strict-typed descriptor setter given something other than a string
    | SetterTypeError(setting: Setting, parameter: string)
    // registry
    | DuplicateCommand(command: string)
    | UnregisteredCommand(command: string)
    // registry: `new CommandAddition` given an invoker factory that is no invocation-strategy factory
    | AdditionFactoryTypeError
    // invocation: shifting past the last declared argument dereferences null
    | MissingArgumentDescriptor
    // invocation: `args` or `assocArgs` in the context holds something other than an array
    | ContextNotAnArray(key: string)

  /** The mutators a namespace command refuses. */
  datatype NamespaceOperation =
    | AddArgumentOp | AddFlagOp | AddOptionOp | AcceptArbitraryOptionsOp
    | SetAfterInvokeOp | SetBeforeInvokeOp | SetHandlerOp | SetNameOp | SetWhenOp

  datatype Result<+T> = Ok(value: T) | Err(error: Error) {
    predicate IsFailure() { Err? }
    function PropagateFailure<U>(): Result<U> requires Err? { Err(error) }
    function Extract(): T requires Ok? { value }
  }

  /** The result of an operation that returns nothing but may throw. */
  datatype Outcome = Pass | Fail(error: Error)
}
