/**
 * The website link rewrite (bot/utilities/helpers/weblink.py): with the
 * website mode on, a bot deep link carrying `start=` is turned into a link
 * to the website that passes along what follows the last `start=`.
 */
module WebLink {
  import opened Wrappers
  import opened PyStr

  /**
   * `get_web_link(link)` under `config.WEBSITE_URL_MODE == urlMode` and
   * `config.WEBSITE_URL == websiteUrl`; with the mode off the function
   * falls through and answers `None`.
   */
  function GetWebLink(urlMode: bool, websiteUrl: string, link: string): (r: Option<string>)
    ensures r.Some? <==> urlMode
    ensures urlMode && !Contains(link, "start=") ==> r == Some(link)
  {
    if urlMode then
      if Contains(link, "start=") then Some(websiteUrl + "?link=" + AfterLast(link, "start="))
      else Some(link)
    else None
  }

  /**
   * With the mode on and `start=` in the link, the answer is the website
   * address with the part after the last `start=`, and that part holds no
   * `start=` of its own.
   */
  lemma RewriteTakesLastPayload(websiteUrl: string, link: string) returns (before: string)
    requires Contains(link, "start=")
    ensures exists part :: GetWebLink(true, websiteUrl, link) == Some(websiteUrl + "?link=" + part) &&
                           link == before + "start=" + part && !Contains(part, "start=")
  {
    var part := AfterLast(link, "start=");
    before := AfterLastFollowsSep(link, "start=");
    AfterLastHasNoSep(link, "start=");
    assert GetWebLink(true, websiteUrl, link) == Some(websiteUrl + "?link=" + part);
  }
}
