/**
 The outside world of a model: a script of answers to the calls that a program makes,
 and the log of those calls. A script that runs out stands for a program that is
 killed while the call is pending.
 */
module Api {
  import opened Wrappers

  class Client<Req, Resp> {
    var answers: seq<Resp>
    var calls: seq<Req>

    constructor (script: seq<Resp>)
      ensures answers == script && calls == []
    {
      answers, calls := script, [];
    }

    method Call(req: Req) returns (resp: Option<Resp>)
      modifies this
      ensures calls == old(calls) + [req]
      ensures resp == if old(answers) == [] then None else Some(old(answers)[0])
      ensures answers == if old(answers) == [] then [] else old(answers)[1..]
    {
      calls := calls + [req];
      if answers == [] {
        return None;
      }
      resp := Some(answers[0]);
      answers := answers[1..];
    }
  }
}
