/** The port-set resolver of the scanner (`parsePorts`) and the rule that
    sizes the worker pool. */
module Scanner {
  import opened GoStrings
  import opened GoStrconv

  /** The highest TCP port; an empty specification means every port 1..MaxPort. */
  const MaxPort: int := 65535

  /** The two errors `parsePorts` reports, each carrying the offending token. */
  datatype ParseError = InvalidRange(token: string) | InvalidPort(token: string)

  datatype Result<T> = Ok(value: T) | Err(error: ParseError)

  /** The integers lo, lo+1, ..., hi in ascending order; empty when hi < lo. */
  function Range(lo: int, hi: int): (r: seq<int>)
    ensures |r| == if hi < lo then 0 else hi - lo + 1
    ensures forall k :: 0 <= k < |r| ==> r[k] == lo + k
    decreases if hi < lo then 0 else hi - lo + 1
  {
    if hi < lo then [] else Range(lo, hi - 1) + [hi]
  }

  /** What one comma-separated token contributes. A token holding `-` is a
      range and must be exactly two integers `start-end` with start <= end;
      any other token must be one integer. */
  function ExpandToken(tok: string): (r: Result<seq<int>>)
    ensures r.Ok? ==> |r.value| >= 1
    ensures r.Err? ==> r.error.token == tok
    ensures r.Err? ==> (r.error.InvalidRange? <==> '-' in tok)
  {
    if '-' in tok then
      var bounds := Split(tok, '-');
      if |bounds| != 2 then Err(InvalidRange(tok))
      else
        var start := Atoi(bounds[0]);
        var end := Atoi(bounds[1]);
        if start.None? || end.None? || start.value > end.value then Err(InvalidRange(tok))
        else Ok(Range(start.value, end.value))
    else
      match Atoi(tok)
      case None => Err(InvalidPort(tok))
      case Some(p) => Ok([p])
  }

  /** Each token's own outcome, in token order. */
  function TokenResults(toks: seq<string>): (rs: seq<Result<seq<int>>>)
    ensures |rs| == |toks|
    ensures forall i :: 0 <= i < |toks| ==> rs[i] == ExpandToken(toks[i])
  {
    seq(|toks|, i requires 0 <= i < |toks| => ExpandToken(toks[i]))
  }

  /** Fail-fast concatenation: the outcomes' port lists joined in order,
      unless one of them is an error, in which case the first error and no
      ports. */
  function Concat(rs: seq<Result<seq<int>>>): (r: Result<seq<int>>)
    ensures r.Err? ==> exists i :: 0 <= i < |rs| && r == rs[i]
  {
    if rs == [] then Ok([])
    else
      match Concat(rs[..|rs| - 1])
      case Err(e) => Err(e)
      case Ok(ports) =>
        match rs[|rs| - 1]
        case Err(e) => Err(e)
        case Ok(more) => Ok(ports + more)
  }

  /** Fail-fast: once every outcome before position i is a port list and
      outcome i is an error, the whole result is that error, whatever
      follows it. */
  lemma {:induction false} FirstErrorWins(rs: seq<Result<seq<int>>>, i: nat)
    requires i < |rs|
    requires Concat(rs[..i]).Ok?
    requires rs[i].Err?
    ensures Concat(rs) == rs[i]
    decreases |rs|
  {
    var init := rs[..|rs| - 1];
    if i == |rs| - 1 {
      assert init == rs[..i];
    } else {
      assert init[..i] == rs[..i];
      FirstErrorWins(init, i);
    }
  }

  /** The meaning of a port specification. */
  function ParseSpec(portArg: string): Result<seq<int>>
  {
    if portArg == "" then Ok(Range(1, MaxPort))
    else Concat(TokenResults(Split(portArg, ',')))
  }

  /** The range loop of `parsePorts`: appends lo, lo+1, ..., hi. */
  method AppendRange(ports: seq<int>, lo: int, hi: int) returns (acc: seq<int>)
    ensures acc == ports + Range(lo, hi)
  {
    acc := ports;
    var i := lo;
    while i <= hi
      invariant lo <= i && (i <= hi + 1 || i == lo)
      invariant acc == ports + Range(lo, i - 1)
      decreases hi - i
    {
      assert Range(lo, i) == Range(lo, i - 1) + [i];
      acc := acc + [i];
      i := i + 1;
    }
  }

  /** The body of `parsePorts`' token loop: appends what one token
      contributes to the ports gathered so far, or reports the token. */
  method AppendToken(ports: seq<int>, part: string) returns (r: Result<seq<int>>)
    ensures r.Ok? <==> ExpandToken(part).Ok?
    ensures r.Ok? ==> r.value == ports + ExpandToken(part).value
    ensures r.Err? ==> r == ExpandToken(part)
  {
    if '-' in part {
      var bounds := Split(part, '-');
      if |bounds| != 2 {
        return Err(InvalidRange(part));
      }
      var start := Atoi(bounds[0]);
      var end := Atoi(bounds[1]);
      if start.None? || end.None? || start.value > end.value {
        return Err(InvalidRange(part));
      }
      var acc := AppendRange(ports, start.value, end.value);
      return Ok(acc);
    } else {
      var port := Atoi(part);
      if port.None? {
        return Err(InvalidPort(part));
      }
      return Ok(ports + [port.value]);
    }
  }

  /** `parsePorts`: builds the port list by appending, token by token, and
      stops at the first token that does not parse. */
  method ParsePorts(portArg: string) returns (r: Result<seq<int>>)
    ensures r == ParseSpec(portArg)
  {
    var ports: seq<int> := [];

    if portArg == "" {
      var i := 1;
      while i <= MaxPort
        invariant 1 <= i <= MaxPort + 1
        invariant ports == Range(1, i - 1)
      {
        ports := ports + [i];
        i := i + 1;
      }
      return Ok(ports);
    }

    var parts := Split(portArg, ',');
    ghost var rs := TokenResults(parts);
    for k := 0 to |parts|
      invariant Concat(rs[..k]) == Ok(ports)
    {
      assert rs[..k + 1][..k] == rs[..k];
      var next := AppendToken(ports, parts[k]);
      if next.Err? {
        FirstErrorWins(rs, k);
        return next;
      }
      ports := next.value;
    }
    assert rs[..|parts|] == rs;
    return Ok(ports);
  }

  /** `min(len(ports), runtime.NumCPU()*20)`: the number of worker goroutines,
      with the CPU count as a parameter. */
  function WorkerCount(numPorts: nat, cpus: nat): (w: nat)
    ensures w <= numPorts && w <= cpus * 20
    ensures w == numPorts || w == cpus * 20
    ensures numPorts > 0 && cpus > 0 ==> w > 0
  {
    if numPorts <= cpus * 20 then numPorts else cpus * 20
  }
}
