/// The two URL expressions of bin/user/scenic.py exactly as written, with
/// Python's name lookup for a name read inside a method: the method's
/// locals first, then the module's globals, then the builtins. Both
/// expressions read a name that exists in none of these scopes, so both
/// raise NameError.
module ScenicAsWritten {
  import opened Results
  import opened Formatting
  import Scenic
  import Decimal

  /// A Python value as far as these expressions need: an int, a str, or
  /// anything else (an object, a module, a function, a class).
  datatype PyValue = PyInt(i: int) | PyStr(s: string) | PyOther

  type Scope = map<string, PyValue>

  /// The module-level names of scenic.py: the attributes every module gets
  /// (`__name__`, `__doc__` from the docstring, ...), its imports, constants,
  /// functions and classes.
  const Globals: Scope := map[
    "__name__" := PyStr("user.scenic"), "__doc__" := PyOther, "__package__" := PyOther,
    "__loader__" := PyOther, "__spec__" := PyOther, "__file__" := PyOther,
    "__cached__" := PyOther, "__builtins__" := PyOther,
    "Queue" := PyOther, "StrictVersion" := PyOther, "dumps" := PyOther, "maxsize" := PyOther,
    "time" := PyOther, "getLogger" := PyOther, "NEW_ARCHIVE_RECORD" := PyOther,
    "UnknownBinding" := PyOther, "UnsupportedFeature" := PyOther, "__version__" := PyOther,
    "US" := PyOther, "get_manager_dict_from_config" := PyOther, "get_site_dict" := PyOther,
    "StdRESTbase" := PyOther, "RESTThread" := PyOther, "to_METRICWX" := PyOther,
    "to_bool" := PyOther, "to_int" := PyOther, "setup" := PyOther,
    "VERSION" := PyStr("0.1"),
    "DEFAULT_URL" := PyStr("https://api.scenicdata.com/station/%s/key/%s"),
    "REQUIRED_WEEWX" := PyStr("4.0.0"),
    "LOG" := PyOther, "info" := PyOther, "get_value" := PyOther,
    "Scenic" := PyOther, "ScenicThread" := PyOther]

  /// The names of Python 3's `builtins` module, searched after the globals,
  /// grouped by their length.
  const BuiltinsByLength: map<int, set<string>> := map[
    2 := {"id"},
    3 := {"abs", "all", "any", "bin", "chr", "dir", "hex", "int", "len", "map", "max", "min",
      "oct", "ord", "pow", "set", "str", "sum", "zip"},
    4 := {"None", "True", "bool", "dict", "eval", "exec", "exit", "hash", "help", "iter", "list",
      "next", "open", "quit", "repr", "type", "vars"},
    5 := {"False", "aiter", "anext", "ascii", "bytes", "float", "input", "print", "range", "round",
      "slice", "super", "tuple"},
    6 := {"divmod", "filter", "format", "locals", "object", "sorted"},
    7 := {"IOError", "OSError", "Warning", "__doc__", "compile", "complex", "credits", "delattr",
      "getattr", "globals", "hasattr", "license", "setattr"},
    8 := {"EOFError", "Ellipsis", "KeyError", "TabError", "__name__", "__spec__", "callable",
      "property", "reversed"},
    9 := {"Exception", "NameError", "TypeError", "__debug__", "bytearray", "copyright",
      "enumerate", "frozenset"},
    10 := {"IndexError", "SystemExit", "ValueError", "__import__", "__loader__", "breakpoint",
      "isinstance", "issubclass", "memoryview"},
    11 := {"BufferError", "ImportError", "LookupError", "MemoryError", "SyntaxError",
      "SystemError", "UserWarning", "__package__", "classmethod"},
    12 := {"BytesWarning", "RuntimeError", "TimeoutError", "UnicodeError", "staticmethod"},
    13 := {"BaseException", "FutureWarning", "GeneratorExit", "ImportWarning", "OverflowError",
      "StopIteration", "SyntaxWarning"},
    14 := {"AssertionError", "AttributeError", "ExceptionGroup", "NotImplemented",
      "RecursionError", "ReferenceError", "RuntimeWarning", "UnicodeWarning"},
    15 := {"ArithmeticError", "BlockingIOError", "BrokenPipeError", "ConnectionError",
      "EncodingWarning", "FileExistsError", "PermissionError", "ResourceWarning",
      "__build_class__"},
    16 := {"EnvironmentError", "IndentationError", "InterruptedError"},
    17 := {"ChildProcessError", "FileNotFoundError", "IsADirectoryError", "KeyboardInterrupt",
      "UnboundLocalError", "ZeroDivisionError"},
    18 := {"BaseExceptionGroup", "DeprecationWarning", "FloatingPointError", "NotADirectoryError",
      "ProcessLookupError", "StopAsyncIteration", "UnicodeDecodeError", "UnicodeEncodeError"},
    19 := {"ModuleNotFoundError", "NotImplementedError"},
    20 := {"ConnectionResetError"},
    21 := {"UnicodeTranslateError"},
    22 := {"ConnectionAbortedError", "ConnectionRefusedError"},
    25 := {"PendingDeprecationWarning"}
  ]

  predicate IsBuiltin(name: string)
  {
    |name| in BuiltinsByLength && name in BuiltinsByLength[|name|]
  }

  /// None of the names lines 111 and 117 fail on is a builtin.
  lemma NotBuiltins()
    ensures !IsBuiltin("api") && !IsBuiltin("station") && !IsBuiltin("api_key")
  {
    assert |"api"| == 3 && |"station"| == 7 && |"api_key"| == 7;
  }

  /// Reading `name` inside a method body: the locals, then the module's
  /// globals, then the builtins.
  function Resolve(name: string, locals: Scope): (r: Result<PyValue, Error>)
    ensures r.Err? <==> name !in locals && name !in Globals && !IsBuiltin(name)
    ensures r.Err? ==> r.error == NameError(name)
    ensures name in locals ==> r == Ok(locals[name])
    ensures name !in locals && name in Globals ==> r == Ok(Globals[name])
  {
    if name in locals then Ok(locals[name])
    else if name in Globals then Ok(Globals[name])
    else if IsBuiltin(name) then Ok(PyOther)
    else Err(NameError(name))
  }

  /// `%s` of an int or a str.
  function PercentS(v: PyValue): string
  {
    match v
    case PyInt(i) => Decimal.IntToString(i)
    case PyStr(s) => s
    case PyOther => "<object>"
  }

  /// `DEFAULT_URL % (<first>, <second>)`: the tuple's names are read left
  /// to right, and the first that cannot be found raises NameError.
  function FormatDefaultUrl(first: string, second: string, locals: Scope): (r: Result<string, Error>)
    ensures r.Err? <==> Resolve(first, locals).Err? || Resolve(second, locals).Err?
  {
    match Resolve(first, locals)
    case Err(e) => Err(e)
    case Ok(a) =>
      match Resolve(second, locals)
      case Err(e) => Err(e)
      case Ok(b) => Ok(Scenic.UrlPrefix + PercentS(a) + Scenic.KeySeparator + PercentS(b))
  }

  /// The locals of `ScenicThread.__init__` when line 111 runs: its
  /// parameters (the caller's values, `station` not yet passed through
  /// `to_int`) and `self`.
  function InitLocals(apiKey: string, station: PyValue): Scope
  {
    map["self" := PyOther, "q" := PyOther, "api_key" := PyStr(apiKey), "station" := station,
        "skip_upload" := PyOther, "manager_dict" := PyOther, "post_interval" := PyOther,
        "max_backlog" := PyOther, "stale" := PyOther, "log_success" := PyOther,
        "log_failure" := PyOther, "timeout" := PyOther, "max_tries" := PyOther,
        "retry_wait" := PyOther]
  }

  /// The locals of `ScenicThread.format_url`: `self` and the ignored record.
  const FormatUrlLocals: Scope := map["self" := PyOther, "_" := PyOther]

  /// Line 111 as written, `DEFAULT_URL % (station, api)`: every construction
  /// of a ScenicThread raises NameError for `api`.
  lemma InitRaisesNameError(apiKey: string, station: PyValue)
    ensures FormatDefaultUrl("station", "api", InitLocals(apiKey, station)) == Err(NameError("api"))
  {
    NotBuiltins();
  }

  /// Line 111 with `api_key`, as intended: the URL of module Scenic, whose
  /// station number and key parse back out of it.
  lemma InitUrlIntended(apiKey: string, station: int)
    ensures FormatDefaultUrl("station", "api_key", InitLocals(apiKey, PyInt(station)))
         == Ok(Scenic.Url(station, apiKey))
    ensures Scenic.ParseUrl(Scenic.Url(station, apiKey)) == Some((station, apiKey))
  {
    Scenic.UrlRoundTrip(station, apiKey);
  }

  /// `super`, which `__init__` calls first (scenic.py:99), is a builtin and
  /// resolves there.
  lemma InitFindsSuper(apiKey: string, station: PyValue)
    ensures "super" !in InitLocals(apiKey, station) && "super" !in Globals && IsBuiltin("super")
    ensures Resolve("super", InitLocals(apiKey, station)) == Ok(PyOther)
  {
  }

  /// Line 117 as written, `DEFAULT_URL % (station, api_key)`: neither name
  /// is a local or a global of format_url, and `station` is read first, so
  /// every call raises NameError for `station`.
  lemma FormatUrlRaisesNameError()
    ensures FormatDefaultUrl("station", "api_key", FormatUrlLocals) == Err(NameError("station"))
    ensures Resolve("api_key", FormatUrlLocals) == Err(NameError("api_key"))
  {
    NotBuiltins();
    assert "station" !in Globals && "api_key" !in Globals;
    assert Resolve("station", FormatUrlLocals) == Err(NameError("station"));
  }
}
