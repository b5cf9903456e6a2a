/** The admin login page: it reads where to go from the `next` query
    parameter and, once the login route accepts the password, goes there. */
module AdminLogin {
  import opened Wrappers
  import opened Json
  import Url

  const DefaultTarget := "/admin/blog"

  /** `sp.get("next") || "/admin/blog"`. */
  function NextTarget(query: Url.Query): (r: string)
    ensures r != ""
    ensures Url.Get(query, "next").Some? && Url.Get(query, "next").value != "" ==>
      r == Url.Get(query, "next").value
    ensures Url.Get(query, "next").None? || Url.Get(query, "next") == Some("") ==>
      r == DefaultTarget
  {
    match Url.Get(query, "next")
    case Some(v) => if v != "" then v else DefaultTarget
    case None => DefaultTarget
  }

  /** How the post to the login route settled: an answer, OK or not, or a
      rejected `fetch`. */
  datatype Answer = Answered(ok: bool) | Rejected

  /** The login form's state. */
  class LoginForm {
    var password: string
    var error: Option<string>
    /** The search part of the page's URL. */
    const query: Url.Query

    constructor (query: Url.Query)
      ensures this.query == query && password == "" && error == None
    {
      this.query := query;
      password := "";
      error := None;
    }

    /** The password input's `onChange`. */
    method SetPassword(value: string)
      modifies this
      ensures password == value && error == old(error)
    {
      password := value;
    }

    /** The body `onSubmit` posts: `{password}`. */
    function RequestPassword(): Value
      reads this
    {
      Str(password)
    }

    /** `onSubmit`, once `fetch` settles. The error is cleared first; an
        OK answer navigates to the target, any other answer shows "Invalid
        password" and stays. A rejected `fetch` is not caught: the page
        neither navigates nor shows an error. */
    method OnSubmit(answer: Answer) returns (navigate: Option<string>)
      modifies this
      ensures password == old(password)
      ensures answer == Answered(true) ==> navigate == Some(NextTarget(query)) && error == None
      ensures answer == Answered(false) ==> navigate == None && error == Some("Invalid password")
      ensures answer.Rejected? ==> navigate == None && error == None
    {
      error := None;
      match answer {
        case Rejected =>
          navigate := None;
        case Answered(ok) =>
          if ok {
            navigate := Some(NextTarget(query));
          } else {
            error := Some("Invalid password");
            navigate := None;
          }
      }
    }
  }
}
