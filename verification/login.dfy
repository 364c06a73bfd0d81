/** The server side of the LOGIN mechanism. */
module Login {
  import opened Options
  import opened Session

  datatype LoginState = Username | Password | Done

  /** Where a LOGIN exchange stands after some responses; None is an absent initial response. */
  datatype Exchange = Exchange(state: LoginState, username: string, calls: seq<(string, string)>)

  function Bytes(response: Option<string>): string {
    match response case Some(s) => s case None => ""
  }

  function NextExchange(x: Exchange, response: Option<string>): Exchange {
    match x.state
    case Username =>
      if response.None? then x else x.(username := response.value, state := Password)
    case Password =>
      x.(state := Done, calls := x.calls + [(x.username, Bytes(response))])
    case Done => x
  }

  function RunLogin(responses: seq<Option<string>>): Exchange {
    if responses == [] then Exchange(Username, "", [])
    else NextExchange(RunLogin(responses[..|responses| - 1]), responses[|responses| - 1])
  }

  datatype Answer = Challenge(text: string) | Finished(reply: Option<Reply>) | Unexpected

  class LoginServer {
    var state: LoginState
    var username: string
    const session: Session
    ghost var responses: seq<Option<string>>
    ghost var before: seq<Event>

    /** The object has seen responses, and authenticated against the session exactly as they say. */
    ghost predicate Valid()
      reads this, session
    {
      var x := RunLogin(responses);
      && session.Valid()
      && state == x.state && username == x.username
      && |x.calls| <= 1
      && session.history == before + seq(|x.calls|, i requires 0 <= i < |x.calls| =>
                                         Authenticate(x.calls[i].0, x.calls[i].1))
      && (state != Done ==> x.calls == [])
    }

    constructor (session: Session)
      requires session.Valid()
      ensures Valid() && responses == [] && this.session == session && before == session.history
    {
      state := Username;
      username := "";
      this.session := session;
      responses := [];
      before := session.history;
    }

    method Next(response: Option<string>) returns (answer: Answer)
      requires Valid()
      modifies this, session
      ensures Valid() && responses == old(responses) + [response] && before == old(before)
      ensures match old(state)
              case Username => answer == Challenge(if response.None? then "Username:" else "Password:")
              case Password => answer.Finished? && state == Done
                               && (answer.reply.None? <==> old(username) == session.opts.username
                                                           && session.opts.password
                                                              == (if response.Some? then response.value else ""))
              case Done => answer == Unexpected && session.history == old(session.history)
    {
      responses := responses + [response];
      assert responses[..|responses| - 1] == old(responses);
      match state {
        case Username =>
          if response.None? {
            return Challenge("Username:");
          }
          username := response.value;
          state := Password;
          return Challenge("Password:");
        case Password =>
          var password := Bytes(response);
          state := Done;
          var reply := session.Authenticate(username, password);
          return Finished(reply);
        case Done =>
          return Unexpected;
      }
    }
  }

  /** The first response present, from position k on. */
  predicate FirstPresent(responses: seq<Option<string>>, k: nat) {
    k < |responses| && responses[k].Some? && forall j :: 0 <= j < k ==> responses[j].None?
  }

  /**
   * Whatever the client sends, credentials are checked at most once: the user name is the first response
   * present and the password is the response right after it, later ones being ignored.
   */
  lemma {:induction false} ChecksOnce(responses: seq<Option<string>>, k: nat)
    requires FirstPresent(responses, k)
    ensures var x := RunLogin(responses);
            if k + 1 < |responses| then
              var password := if responses[k + 1].Some? then responses[k + 1].value else "";
              x == Exchange(Done, responses[k].value, [(responses[k].value, password)])
            else x == Exchange(Password, responses[k].value, [])
  {
    var n := |responses| - 1;
    if k == n {
      NeverPresent(responses[..n]);
    } else {
      ChecksOnce(responses[..n], k);
    }
  }

  lemma {:induction false} NeverPresent(responses: seq<Option<string>>)
    requires forall j :: 0 <= j < |responses| ==> responses[j].None?
    ensures RunLogin(responses) == Exchange(Username, "", [])
  {
    if responses != [] {
      NeverPresent(responses[..|responses| - 1]);
    }
  }
}
