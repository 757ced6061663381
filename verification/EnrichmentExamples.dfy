/** Seven rows, of which the first and the last share a host and have different pages.
    What is between them decides whether the last one is given the first one's page. */
module EnrichmentExamples {
  import opened Wrappers
  import opened Enrichment
  import opened EnrichmentCache

  function HostOf(site: string): Option<string> { if site == "" then None else Some([site[0]]) }

  /** Every page describes its own address; the host of "ax" is "a". */
  const WEB := Web(HostOf, (site: string) => Some(EMPTY.(description := Some(site))))

  function RowAt(site: Option<string>): Row { Row("", None, site, None, []) }

  const FETCHING := [RowAt(Some("ax")), RowAt(Some("b")), RowAt(Some("c")), RowAt(Some("d")), RowAt(Some("e")),
                     RowAt(Some("f")), RowAt(Some("ay"))]

  const SITELESS := [RowAt(Some("ax")), RowAt(None), RowAt(None), RowAt(None), RowAt(None), RowAt(None), RowAt(Some("ay"))]

  /** Five other pages are fetched meanwhile: "ax" may arrive before "ay" is looked up. */
  lemma SharedHostIsSeen()
    ensures !Transparent(WEB, FETCHING, map[])
  {
    var six: set<nat> := {0, 1, 2, 3, 4, 5};
    assert six <= Fetchers(WEB, FETCHING, map[], 6);
    SubsetSize(six, Fetchers(WEB, FETCHING, map[], 6));
    assert SameHost(WEB, FETCHING, 0, 6);
    assert Page(WEB, FETCHING[0]).value.description == Some("ax") && Alone(WEB, FETCHING[6]).description == Some("ay");
    assert "ax"[1] != "ay"[1];
    assert !Agree(WEB, FETCHING, 0, 6);
    CacheIsInvisible(WEB, FETCHING, map[]);
  }

  /** Rows without a site keep no worker busy: "ay" is looked up before "ax" arrives. */
  lemma SitelessRowsDoNotWait()
    ensures Transparent(WEB, SITELESS, map[])
  {
    forall j: nat | j < |SITELESS| ensures !Waits(WEB, SITELESS, map[], j) {
      SubsetSize(Fetchers(WEB, SITELESS, map[], j), {0});
    }
    CacheIsInvisible(WEB, SITELESS, map[]);
  }
}
