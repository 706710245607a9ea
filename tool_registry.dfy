/**
 * agent/tool_registry.py: a name-to-tool table that keeps first-registration
 * order (as a Python dict does), the metadata listing handed to a model, and
 * the dispatch that normalises a call's arguments. The tool functions are
 * opaque values of type F; calling one is left to the caller of Execute.
 */
module ToolRegistry {
  import opened Wrappers
  import opened Json
  import opened Strings
  import opened Oracles

  /** One registry entry. */
  datatype Tool<F> = Tool(name: string, description: string, parameters: map<string, Json>, fn: F)

  /** What get_tools_for_model lists for a tool: the entry without its function. */
  datatype ToolInfo = ToolInfo(name: string, description: string, parameters: map<string, Json>)

  /** The `arguments` of execute: a str, a dict, or anything else. */
  datatype Arguments = ArgText(text: string) | ArgDict(dict: map<string, Json>) | ArgOther

  /** fn(**kwargs), ready to be made. */
  datatype Invocation<F> = Invocation(fn: F, kwargs: map<string, Json>)

  /** `parameters or {}`. */
  function ParametersOrEmpty(parameters: Option<map<string, Json>>): (r: map<string, Json>)
    ensures parameters.None? ==> r == map[]
    ensures parameters.Some? ==> r == parameters.value
  {
    if parameters.Some? && parameters.value != map[] then parameters.value else map[]
  }

  function InfoOf<F>(t: Tool<F>): ToolInfo {
    ToolInfo(t.name, t.description, t.parameters)
  }

  /** The key of an `a=b` part (the text before its first '='), if it has one. */
  function KeyOf(p: string): Option<string> {
    match Find(p, "=", 0)
    case None => None
    case Some(i) => Some(p[..i])
  }

  /** args[k] = v for a part with an '=', split at its first '='; other parts change nothing. */
  function Assign(args: map<string, string>, p: string): (r: map<string, string>)
    ensures KeyOf(p).None? ==> r == args
    ensures KeyOf(p).Some? ==> r.Keys == args.Keys + {KeyOf(p).value}
    ensures KeyOf(p).Some? ==> r[KeyOf(p).value] == ValueOf(p)
    ensures forall k :: k in args && KeyOf(p) != Some(k) ==> k in r && r[k] == args[k]
  {
    match Find(p, "=", 0)
    case None => args
    case Some(i) => args[p[..i] := p[i + 1..]]
  }

  /** The value an `a=b` part assigns: the text after its first '='. */
  function ValueOf(p: string): string
    requires KeyOf(p).Some?
  {
    var i := Find(p, "=", 0).value;
    p[i + 1..]
  }

  /** The assignments of all parts, left to right. */
  function AssignAll(args: map<string, string>, parts: seq<string>): map<string, string>
    decreases |parts|
  {
    if parts == [] then args else AssignAll(Assign(args, parts[0]), parts[1..])
  }

  /** [p.strip() for p in pieces if p.strip()]. */
  function StrippedParts(pieces: seq<string>): (parts: seq<string>)
    ensures |parts| <= |pieces|
    ensures forall k :: 0 <= k < |parts| ==> parts[k] != ""
    decreases |pieces|
  {
    if pieces == [] then []
    else (if Strip(pieces[0]) == "" then [] else [Strip(pieces[0])]) + StrippedParts(pieces[1..])
  }

  /** Every part is the trimmed text of some piece. */
  lemma {:induction false} StrippedPartsSound(pieces: seq<string>)
    ensures forall k :: 0 <= k < |StrippedParts(pieces)| ==>
      exists j :: 0 <= j < |pieces| && StrippedParts(pieces)[k] == Strip(pieces[j])
    decreases |pieces|
  {
    if pieces != [] {
      var tail := pieces[1..];
      StrippedPartsSound(tail);
      var head := if Strip(pieces[0]) == "" then [] else [Strip(pieces[0])];
      var parts := StrippedParts(pieces);
      assert parts == head + StrippedParts(tail);
      forall k | 0 <= k < |parts|
        ensures exists j :: 0 <= j < |pieces| && parts[k] == Strip(pieces[j])
      {
        if k < |head| {
          assert 0 < |pieces| && parts[k] == Strip(pieces[0]);
        } else {
          var i := k - |head|;
          assert parts[k] == StrippedParts(tail)[i];
          var j :| 0 <= j < |tail| && StrippedParts(tail)[i] == Strip(tail[j]);
          assert tail[j] == pieces[j + 1];
          assert 0 <= j + 1 < |pieces| && parts[k] == Strip(pieces[j + 1]);
        }
      }
    } else {
      assert StrippedParts(pieces) == [];
    }
  }

  /** Every piece that is not blank appears, trimmed, among the parts. */
  lemma {:induction false} StrippedPartsComplete(pieces: seq<string>)
    ensures forall j :: 0 <= j < |pieces| && Strip(pieces[j]) != "" ==> Strip(pieces[j]) in StrippedParts(pieces)
    decreases |pieces|
  {
    if pieces != [] {
      StrippedPartsComplete(pieces[1..]);
      assert forall j :: 1 <= j < |pieces| ==> pieces[j] == pieces[1..][j - 1];
    }
  }

  /** Without blank pieces nothing is dropped: the parts are the pieces trimmed, in order. */
  lemma {:induction false} StrippedPartsAllKept(pieces: seq<string>)
    requires forall j :: 0 <= j < |pieces| ==> Strip(pieces[j]) != ""
    ensures |StrippedParts(pieces)| == |pieces|
    ensures forall j :: 0 <= j < |pieces| ==> StrippedParts(pieces)[j] == Strip(pieces[j])
    decreases |pieces|
  {
    if pieces != [] {
      assert forall j :: 1 <= j < |pieces| ==> pieces[j] == pieces[1..][j - 1];
      StrippedPartsAllKept(pieces[1..]);
    }
  }

  /** Filtering a concatenation filters each half and keeps their order. */
  lemma {:induction false} StrippedPartsAppend(a: seq<string>, b: seq<string>)
    ensures StrippedParts(a + b) == StrippedParts(a) + StrippedParts(b)
    decreases |a|
  {
    if a == [] {
      assert a + b == b;
    } else {
      assert (a + b)[1..] == a[1..] + b;
      StrippedPartsAppend(a[1..], b);
    }
  }

  /** The trimmed, non-empty '&'-separated parts of an argument string. */
  function ArgParts(s: string): seq<string> {
    StrippedParts(Split(s, '&'))
  }

  /** The fallback parse of a non-JSON argument string such as "url=https://x&n=1". */
  function KeyValueArgs(s: string): map<string, string> {
    AssignAll(map[], ArgParts(s))
  }

  function AsJsonStrings(m: map<string, string>): (r: map<string, Json>)
    ensures r.Keys == m.Keys
    ensures forall k :: k in m ==> r[k] == JString(m[k])
  {
    map k | k in m :: JString(m[k])
  }

  /**
   * The keyword arguments execute passes on: a JSON object parsed from the
   * string, else the key=value fallback; a dict as it is; anything else {}.
   * JSON that is not an object makes the call itself fail.
   */
  function NormalizeArgs(arguments: Arguments, jsonLoads: string -> Option<Json>): (r: Result<map<string, Json>, Error>)
    ensures arguments.ArgDict? ==> r == Success(arguments.dict)
    ensures arguments.ArgOther? ==> r == Success(map[])
    ensures arguments.ArgText? && jsonLoads(arguments.text).None? ==>
      r == Success(AsJsonStrings(KeyValueArgs(arguments.text)))
    ensures arguments.ArgText? && jsonLoads(arguments.text).Some? ==>
      (r.Success? <==> jsonLoads(arguments.text).value.JObject?)
    ensures arguments.ArgText? && jsonLoads(arguments.text).Some? && jsonLoads(arguments.text).value.JObject? ==>
      r == Success(jsonLoads(arguments.text).value.fields)
    ensures arguments.ArgText? && jsonLoads(arguments.text).Some? && !jsonLoads(arguments.text).value.JObject? ==>
      r == Failure(TypeError("argument after ** must be a mapping, not " + TypeName(jsonLoads(arguments.text).value)))
  {
    match arguments
    case ArgDict(d) => Success(d)
    case ArgOther => Success(map[])
    case ArgText(s) =>
      match jsonLoads(s)
      case None => Success(AsJsonStrings(KeyValueArgs(s)))
      case Some(JObject(m)) => Success(m)
      case Some(other) => Failure(TypeError("argument after ** must be a mapping, not " + TypeName(other)))
  }

  /** Folding from index i is the assignment of part i, then the fold from i + 1. */
  lemma {:induction false} AssignAllStep(args: map<string, string>, parts: seq<string>, i: nat)
    requires i < |parts|
    ensures AssignAll(args, parts[i..]) == AssignAll(Assign(args, parts[i]), parts[i + 1..])
  {
    assert parts[i..][1..] == parts[i + 1..];
  }

  /** The loop's own split at the first '=' is Assign. */
  lemma {:induction false} AssignInline(args: map<string, string>, p: string, r: map<string, string>)
    requires Find(p, "=", 0).Some? ==> r == args[p[..Find(p, "=", 0).value] := p[Find(p, "=", 0).value + 1..]]
    requires Find(p, "=", 0).None? ==> r == args
    ensures r == Assign(args, p)
  {
  }

  /** Folding one more part at the end is one more assignment. */
  lemma {:induction false} AssignAllSnoc(args: map<string, string>, parts: seq<string>, p: string)
    ensures AssignAll(args, parts + [p]) == Assign(AssignAll(args, parts), p)
    decreases |parts|
  {
    if parts == [] {
      assert [p][1..] == [];
    } else {
      assert (parts + [p])[1..] == parts[1..] + [p];
      AssignAllSnoc(Assign(args, parts[0]), parts[1..], p);
    }
  }

  /** Parts that never assign k leave k as it was. */
  lemma {:induction false} AssignAllUntouched(args: map<string, string>, parts: seq<string>, k: string)
    requires forall j :: 0 <= j < |parts| ==> KeyOf(parts[j]) != Some(k)
    ensures k in AssignAll(args, parts) <==> k in args
    ensures k in args ==> AssignAll(args, parts)[k] == args[k]
    decreases |parts|
  {
    if parts != [] {
      assert KeyOf(parts[0]) != Some(k);
      AssignAllUntouched(Assign(args, parts[0]), parts[1..], k);
    }
  }

  /** A key ends up in the result exactly when it was there or some part assigns it. */
  lemma {:induction false} AssignAllKeys(args: map<string, string>, parts: seq<string>, k: string)
    ensures k in AssignAll(args, parts) <==>
      k in args || exists j :: 0 <= j < |parts| && KeyOf(parts[j]) == Some(k)
    decreases |parts|
  {
    if parts != [] {
      AssignAllKeys(Assign(args, parts[0]), parts[1..], k);
      if exists j :: 0 <= j < |parts| && KeyOf(parts[j]) == Some(k) {
        var j :| 0 <= j < |parts| && KeyOf(parts[j]) == Some(k);
        if j > 0 {
          assert parts[1..][j - 1] == parts[j];
        }
      }
      if exists j :: 0 <= j < |parts[1..]| && KeyOf(parts[1..][j]) == Some(k) {
        var j :| 0 <= j < |parts[1..]| && KeyOf(parts[1..][j]) == Some(k);
        assert KeyOf(parts[j + 1]) == Some(k);
      }
    }
  }

  /** When part i is the last to assign k, k maps to the text after part i's first '='. */
  lemma {:induction false} LastAssignmentWins(args: map<string, string>, parts: seq<string>, i: nat, k: string)
    requires i < |parts| && KeyOf(parts[i]) == Some(k)
    requires forall j :: i < j < |parts| ==> KeyOf(parts[j]) != Some(k)
    ensures k in AssignAll(args, parts) && AssignAll(args, parts)[k] == ValueOf(parts[i])
  {
    AssignAllSplit(args, parts[..i + 1], parts[i + 1..]);
    assert parts[..i + 1] + parts[i + 1..] == parts;
    assert parts[..i + 1] == parts[..i] + [parts[i]];
    AssignAllSnoc(args, parts[..i], parts[i]);
    var mid := AssignAll(args, parts[..i + 1]);
    assert k in mid && mid[k] == ValueOf(parts[i]);
    var tail := parts[i + 1..];
    assert forall j :: 0 <= j < |tail| ==> tail[j] == parts[i + 1 + j];
    AssignAllUntouched(mid, tail, k);
  }

  lemma {:induction false} AssignAllSplit(args: map<string, string>, xs: seq<string>, ys: seq<string>)
    ensures AssignAll(args, xs + ys) == AssignAll(AssignAll(args, xs), ys)
    decreases |xs|
  {
    if xs != [] {
      assert (xs + ys)[1..] == xs[1..] + ys;
      AssignAllSplit(Assign(args, xs[0]), xs[1..], ys);
    } else {
      assert xs + ys == ys;
    }
  }

  /** The fallback parse: a key is present exactly when some trimmed non-empty part assigns it. */
  lemma {:induction false} KeyValueArgsKeys(s: string, k: string)
    ensures k in KeyValueArgs(s) <==> exists j :: 0 <= j < |ArgParts(s)| && KeyOf(ArgParts(s)[j]) == Some(k)
  {
    var empty: map<string, string> := map[];
    AssignAllKeys(empty, ArgParts(s), k);
  }

  /**
   * The registry: `tools` is the Python dict self._tools and `order` its key
   * order (first registration of each name).
   */
  class Registry<F> {
    var order: seq<string>
    var tools: map<string, Tool<F>>

    ghost predicate Valid()
      reads this
    {
      && (forall i, j :: 0 <= i < j < |order| ==> order[i] != order[j])
      && (forall n :: n in tools <==> n in order)
      && (forall n :: n in tools ==> tools[n].name == n)
    }

    constructor()
      ensures Valid() && order == [] && tools == map[]
    {
      order := [];
      tools := map[];
    }

    /** register_fn: the entry for `name` is (re)written; a new name joins the end of the order. */
    method RegisterFn(name: string, fn: F, description: string, parameters: Option<map<string, Json>>)
      requires Valid()
      modifies this
      ensures Valid()
      ensures tools == old(tools)[name := Tool(name, description, ParametersOrEmpty(parameters), fn)]
      ensures order == if name in old(tools) then old(order) else old(order) + [name]
    {
      if name !in tools {
        order := order + [name];
      }
      tools := tools[name := Tool(name, description, ParametersOrEmpty(parameters), fn)];
    }

    /** register(name, description, parameters) applied to fn: the same entry, and fn handed back. */
    method Register(name: string, description: string, parameters: Option<map<string, Json>>, fn: F) returns (r: F)
      requires Valid()
      modifies this
      ensures Valid()
      ensures r == fn
      ensures tools == old(tools)[name := Tool(name, description, ParametersOrEmpty(parameters), fn)]
      ensures order == if name in old(tools) then old(order) else old(order) + [name]
    {
      RegisterFn(name, fn, description, parameters);
      r := fn;
    }

    /** get_tools_for_model: one metadata record per registered name, in registration order. */
    method GetToolsForModel() returns (infos: seq<ToolInfo>)
      requires Valid()
      ensures |infos| == |order|
      ensures forall k :: 0 <= k < |order| ==> infos[k] == InfoOf(tools[order[k]])
      ensures forall n :: n in tools <==> exists k :: 0 <= k < |infos| && infos[k].name == n
      ensures forall i, j :: 0 <= i < j < |infos| ==> infos[i].name != infos[j].name
    {
      infos := [];
      var i := 0;
      while i < |order|
        invariant 0 <= i <= |order|
        invariant |infos| == i
        invariant forall k :: 0 <= k < i ==> infos[k] == InfoOf(tools[order[k]])
      {
        var t := tools[order[i]];
        infos := infos + [ToolInfo(t.name, t.description, t.parameters)];
        i := i + 1;
      }
      assert forall k :: 0 <= k < |infos| ==> infos[k].name == order[k];
    }

    /** The key=value fallback loop of execute. */
    static method ParseKeyValues(arguments: string) returns (args: map<string, string>)
      ensures args == KeyValueArgs(arguments)
    {
      var parts := ArgParts(arguments);
      args := map[];
      var i := 0;
      while i < |parts|
        invariant 0 <= i <= |parts|
        invariant AssignAll(args, parts[i..]) == KeyValueArgs(arguments)
      {
        var p := parts[i];
        ghost var before := args;
        match Find(p, "=", 0) {
          case Some(e) =>
            args := args[p[..e] := p[e + 1..]];
          case None =>
        }
        AssignInline(before, p, args);
        AssignAllStep(before, parts, i);
        i := i + 1;
      }
    }

    /** execute: the tool's function and its keyword arguments, or KeyError for an unknown name. */
    method Execute(name: string, arguments: Arguments, jsonLoads: string -> Option<Json>)
      returns (r: Result<Invocation<F>, Error>)
      requires Valid()
      ensures name !in tools ==> r == Failure(KeyError("Tool not found: " + name))
      ensures name in tools ==>
        match NormalizeArgs(arguments, jsonLoads)
        case Success(kwargs) => r == Success(Invocation(tools[name].fn, kwargs))
        case Failure(e) => r == Failure(e)
    {
      if name !in tools {
        return Failure(KeyError("Tool not found: " + name));
      }
      var fn := tools[name].fn;
      var args: map<string, Json> := map[];
      match arguments {
        case ArgText(s) =>
          match jsonLoads(s) {
            case Some(JObject(m)) =>
              args := m;
            case Some(other) =>
              return Failure(TypeError("argument after ** must be a mapping, not " + TypeName(other)));
            case None =>
              var kv := ParseKeyValues(s);
              args := AsJsonStrings(kv);
          }
        case ArgDict(d) =>
          args := d;
        case ArgOther =>
      }
      r := Success(Invocation(fn, args));
    }
  }
}
