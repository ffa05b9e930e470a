/** The secret registry and the section names as the server declares them, and
    the proof that they have the form migration relies on. */
module DeclaredRegistry {
  import opened Bytes
  import opened Resolver
  import opened Migrate
  import opened MigrateMeaning

  const VENDOR_COUNT: nat := 23

  /** The section names of each vendor, in the order migration walks them; the
      first name is the vendor's own. */
  function Names(i: nat): (names: seq<string>)
    requires i < VENDOR_COUNT
    ensures names != []
  {
    match i
    case 0 =>
      ["bitbucket", "atlassian-bitbucket", "@huskercane/mcp-server-devtools", "mcp-server-devtools",
       "@huskercane/mcp-server-atlassian", "mcp-server-atlassian", "@aashari/mcp-server-atlassian-bitbucket",
       "mcp-server-atlassian-bitbucket"]
    case 1 => ["jira", "atlassian-jira", "@aashari/mcp-server-atlassian-jira", "mcp-server-atlassian-jira"]
    case 2 =>
      ["confluence", "atlassian-confluence", "@aashari/mcp-server-atlassian-confluence",
       "mcp-server-atlassian-confluence"]
    case 3 => ["zoom", "mcp-server-zoom"]
    case 4 => ["circleci", "circle-ci", "mcp-server-circleci"]
    case 5 => ["slack", "mcp-server-slack"]
    case 6 => ["postman", "mcp-server-postman"]
    case 7 => ["edx", "openedx", "open-edx", "mcp-server-edx"]
    case 8 => ["newrelic", "new-relic", "mcp-server-newrelic"]
    case 9 => ["grafana", "mcp-server-grafana"]
    case 10 => ["sonarqube", "sonar", "sonarcloud", "mcp-server-sonarqube"]
    case 11 => ["teamcity", "team-city", "mcp-server-teamcity"]
    case 12 => ["splunk", "mcp-server-splunk"]
    case 13 => ["ninjaone", "ninja-one", "ninjarmm", "mcp-server-ninjaone"]
    case 14 => ["wrds", "mcp-server-wrds"]
    case 15 => ["github", "mcp-server-github"]
    case 16 => ["gitlab", "mcp-server-gitlab"]
    case 17 => ["figma", "mcp-server-figma"]
    case 18 => ["vercel", "mcp-server-vercel"]
    case 19 => ["sentry", "mcp-server-sentry"]
    case 20 => ["artifactory", "jfrog", "mcp-server-artifactory"]
    case 21 => ["snyk", "mcp-server-snyk"]
    case _ => ["mend", "whitesource", "mcp-server-mend"]
  }

  /** No two vendors' names have the same last and third-last letter. */
  function Owner(name: string): int {
    if |name| < 3 then -1
    else
      match (name[|name| - 3], name[|name| - 1])
      case ('k', 't') => 0
      case ('o', 's') => 0
      case ('i', 'n') => 0
      case ('i', 'a') => 1
      case ('n', 'e') => 2
      case ('o', 'm') => 3
      case ('e', 'i') => 4
      case ('-', 'i') => 4
      case ('a', 'k') => 5
      case ('m', 'n') => 6
      case ('e', 'x') => 7
      case ('l', 'c') => 8
      case ('a', 'a') => 9
      case ('u', 'e') => 10
      case ('n', 'r') => 10
      case ('o', 'd') => 10
      case ('i', 'y') => 11
      case ('u', 'k') => 12
      case ('o', 'e') => 13
      case ('r', 'm') => 13
      case ('r', 's') => 14
      case ('h', 'b') => 15
      case ('l', 'b') => 16
      case ('g', 'a') => 17
      case ('c', 'l') => 18
      case ('t', 'y') => 19
      case ('o', 'y') => 20
      case ('r', 'g') => 20
      case ('n', 'k') => 21
      case ('e', 'd') => 22
      case ('r', 'e') => 22
      case _ => -1
  }

  lemma NamesOwned0(i: nat)
    requires 0 <= i < 4
    ensures forall k :: 0 <= k < |Names(i)| ==> Owner(Names(i)[k]) == i
  {
    if i == 0 {
      assert Owner("bitbucket") == 0 &&
        Owner("atlassian-bitbucket") == 0 &&
        Owner("@huskercane/mcp-server-devtools") == 0 &&
        Owner("mcp-server-devtools") == 0 &&
        Owner("@huskercane/mcp-server-atlassian") == 0 &&
        Owner("mcp-server-atlassian") == 0 &&
        Owner("@aashari/mcp-server-atlassian-bitbucket") == 0 &&
        Owner("mcp-server-atlassian-bitbucket") == 0;
    }
    if i == 1 {
      assert Owner("jira") == 1 &&
        Owner("atlassian-jira") == 1 &&
        Owner("@aashari/mcp-server-atlassian-jira") == 1 &&
        Owner("mcp-server-atlassian-jira") == 1;
    }
    if i == 2 {
      assert Owner("confluence") == 2 &&
        Owner("atlassian-confluence") == 2 &&
        Owner("@aashari/mcp-server-atlassian-confluence") == 2 &&
        Owner("mcp-server-atlassian-confluence") == 2;
    }
    if i == 3 {
      assert Owner("zoom") == 3 &&
        Owner("mcp-server-zoom") == 3;
    }
  }

  lemma NamesOwned4(i: nat)
    requires 4 <= i < 8
    ensures forall k :: 0 <= k < |Names(i)| ==> Owner(Names(i)[k]) == i
  {
    if i == 4 {
      assert Owner("circleci") == 4 &&
        Owner("circle-ci") == 4 &&
        Owner("mcp-server-circleci") == 4;
    }
    if i == 5 {
      assert Owner("slack") == 5 &&
        Owner("mcp-server-slack") == 5;
    }
    if i == 6 {
      assert Owner("postman") == 6 &&
        Owner("mcp-server-postman") == 6;
    }
    if i == 7 {
      assert Owner("edx") == 7 &&
        Owner("openedx") == 7 &&
        Owner("open-edx") == 7 &&
        Owner("mcp-server-edx") == 7;
    }
  }

  lemma NamesOwned8(i: nat)
    requires 8 <= i < 12
    ensures forall k :: 0 <= k < |Names(i)| ==> Owner(Names(i)[k]) == i
  {
    if i == 8 {
      assert Owner("newrelic") == 8 &&
        Owner("new-relic") == 8 &&
        Owner("mcp-server-newrelic") == 8;
    }
    if i == 9 {
      assert Owner("grafana") == 9 &&
        Owner("mcp-server-grafana") == 9;
    }
    if i == 10 {
      assert Owner("sonarqube") == 10 &&
        Owner("sonar") == 10 &&
        Owner("sonarcloud") == 10 &&
        Owner("mcp-server-sonarqube") == 10;
    }
    if i == 11 {
      assert Owner("teamcity") == 11 &&
        Owner("team-city") == 11 &&
        Owner("mcp-server-teamcity") == 11;
    }
  }

  lemma NamesOwned12(i: nat)
    requires 12 <= i < 16
    ensures forall k :: 0 <= k < |Names(i)| ==> Owner(Names(i)[k]) == i
  {
    if i == 12 {
      assert Owner("splunk") == 12 &&
        Owner("mcp-server-splunk") == 12;
    }
    if i == 13 {
      assert Owner("ninjaone") == 13 &&
        Owner("ninja-one") == 13 &&
        Owner("ninjarmm") == 13 &&
        Owner("mcp-server-ninjaone") == 13;
    }
    if i == 14 {
      assert Owner("wrds") == 14 &&
        Owner("mcp-server-wrds") == 14;
    }
    if i == 15 {
      assert Owner("github") == 15 &&
        Owner("mcp-server-github") == 15;
    }
  }

  lemma NamesOwned16(i: nat)
    requires 16 <= i < 20
    ensures forall k :: 0 <= k < |Names(i)| ==> Owner(Names(i)[k]) == i
  {
    if i == 16 {
      assert Owner("gitlab") == 16 &&
        Owner("mcp-server-gitlab") == 16;
    }
    if i == 17 {
      assert Owner("figma") == 17 &&
        Owner("mcp-server-figma") == 17;
    }
    if i == 18 {
      assert Owner("vercel") == 18 &&
        Owner("mcp-server-vercel") == 18;
    }
    if i == 19 {
      assert Owner("sentry") == 19 &&
        Owner("mcp-server-sentry") == 19;
    }
  }

  lemma NamesOwned20(i: nat)
    requires 20 <= i < 23
    ensures forall k :: 0 <= k < |Names(i)| ==> Owner(Names(i)[k]) == i
  {
    if i == 20 {
      assert Owner("artifactory") == 20 &&
        Owner("jfrog") == 20 &&
        Owner("mcp-server-artifactory") == 20;
    }
    if i == 21 {
      assert Owner("snyk") == 21 &&
        Owner("mcp-server-snyk") == 21;
    }
    if i == 22 {
      assert Owner("mend") == 22 &&
        Owner("whitesource") == 22 &&
        Owner("mcp-server-mend") == 22;
    }
  }

  lemma NamesOwned(i: nat)
    requires i < VENDOR_COUNT
    ensures forall k :: 0 <= k < |Names(i)| ==> Owner(Names(i)[k]) == i
  {
    hide Names, Owner;
    if i < 4 {
      NamesOwned0(i);
    } else if i < 8 {
      NamesOwned4(i);
    } else if i < 12 {
      NamesOwned8(i);
    } else if i < 16 {
      NamesOwned12(i);
    } else if i < 20 {
      NamesOwned16(i);
    } else {
      NamesOwned20(i);
    }
  }

  /** Every secret the server keeps, vendor by vendor in that order. */
  function RowAt(i: nat): Row
    requires i < ROW_COUNT
  {
    match i
    case 0 => ApiRow(BITBUCKET)
    case 1 => APP_ROW
    case 2 => ApiRow("jira")
    case 3 => ApiRow("confluence")
    case 4 => Row("zoom", "ZOOM_CLIENT_SECRET", Some("ZOOM_CLIENT_ID"), PlainToken)
    case 5 => Row("circleci", "CIRCLECI_TOKEN", None, PlainToken)
    case 6 => Row("slack", "SLACK_TOKEN", None, PlainToken)
    case 7 => Row("postman", "POSTMAN_API_KEY", None, PlainToken)
    case 8 => Row("edx", "EDX_ACCESS_TOKEN", None, PlainToken)
    case 9 => Row("newrelic", "NEW_RELIC_API_KEY", None, PlainToken)
    case 10 => Row("grafana", "GRAFANA_TOKEN", None, PlainToken)
    case 11 => Row("sonarqube", "SONARQUBE_TOKEN", None, PlainToken)
    case 12 => Row("teamcity", "TEAMCITY_TOKEN", None, PlainToken)
    case 13 => Row("splunk", "SPLUNK_TOKEN", None, PlainToken)
    case 14 => Row("ninjaone", "NINJAONE_PASSWORD", Some("NINJAONE_EMAIL"), Password)
    case 15 => Row("ninjaone", "NINJAONE_TOTP_SECRET", Some("NINJAONE_EMAIL"), TotpSecret)
    case 16 => Row("ninjaone", "NINJAONE_ACCESS_TOKEN", None, PlainToken)
    case 17 => Row("ninjaone", "NINJAONE_SESSION_KEY", None, PlainToken)
    case 18 => Row("ninjaone", "NINJAONE_SESSION_COOKIE", None, PlainToken)
    case 19 => Row("wrds", "WRDS_PASSWORD", Some("WRDS_USERNAME"), Password)
    case 20 => Row("github", "GITHUB_TOKEN", None, PlainToken)
    case 21 => Row("gitlab", "GITLAB_TOKEN", None, PlainToken)
    case 22 => Row("figma", "FIGMA_TOKEN", None, PlainToken)
    case 23 => Row("vercel", "VERCEL_TOKEN", None, PlainToken)
    case 24 => Row("sentry", "SENTRY_TOKEN", None, PlainToken)
    case 25 => Row("artifactory", "ARTIFACTORY_TOKEN", None, PlainToken)
    case 26 => Row("snyk", "SNYK_TOKEN", None, PlainToken)
    case _ => Row("mend", "MEND_USER_KEY", Some("MEND_EMAIL"), Password)
  }

  const ROW_COUNT: nat := 28

  /** The vendor of each row: the first two rows are Bitbucket's, five are NinjaOne's. */
  function RowOwner(i: nat): nat {
    if i == 0 then 0 else if i < 14 then i - 1 else if i < 19 then 13 else i - 5
  }

  lemma RowsOwned0(i: nat)
    requires 0 <= i < 7
    ensures RowAt(i).vendor == Names(RowOwner(i))[0]
  {
    hide Owner;
  }

  lemma RowsOwned7(i: nat)
    requires 7 <= i < 14
    ensures RowAt(i).vendor == Names(RowOwner(i))[0]
  {
    hide Owner;
  }

  lemma RowsOwned14(i: nat)
    requires 14 <= i < 21
    ensures RowAt(i).vendor == Names(RowOwner(i))[0]
  {
    hide Owner;
  }

  lemma RowsOwned21(i: nat)
    requires 21 <= i < 28
    ensures RowAt(i).vendor == Names(RowOwner(i))[0]
  {
    hide Owner;
  }

  /** A row is filed under its vendor's own section name. */
  lemma RowOwned(i: nat)
    requires i < ROW_COUNT
    ensures RowAt(i).vendor == Names(RowOwner(i))[0]
  {
    hide RowAt, Names;
    if i < 7 {
      RowsOwned0(i);
    } else if i < 14 {
      RowsOwned7(i);
    } else if i < 21 {
      RowsOwned14(i);
    } else {
      RowsOwned21(i);
    }
  }

  lemma AccountIsNotTheSecret(i: nat)
    requires i < ROW_COUNT
    ensures RowAt(i).principalKey != Some(RowAt(i).secretKey)
  {
    hide Owner, Names;
  }

  /** Rows of one vendor fit together. */
  lemma RowsFit(i: nat, j: nat)
    requires i < ROW_COUNT && j < ROW_COUNT && i != j && RowOwner(i) == RowOwner(j)
    ensures RowAt(i).principalKey != Some(RowAt(j).secretKey)
    ensures RowAt(i).secretKey != RowAt(j).secretKey && Apart(RowAt(i), RowAt(j))
  {
  }

  function Rows(n: nat): (rows: seq<Row>)
    requires n <= ROW_COUNT
    ensures |rows| == n && forall i :: 0 <= i < n ==> rows[i] == RowAt(i)
  {
    if n == 0 then [] else Rows(n - 1) + [RowAt(n - 1)]
  }

  /** The vendors by name, with their section names. */
  function Aliases(n: nat): map<string, seq<string>>
    requires n <= VENDOR_COUNT
  {
    if n == 0 then map[] else Aliases(n - 1)[Names(n - 1)[0] := Names(n - 1)]
  }

  /** A vendor with sections is one of those listed, by the name it is listed under. */
  lemma {:induction false} AliasesListed(n: nat, v: string) returns (i: nat)
    requires n <= VENDOR_COUNT && v in Aliases(n)
    ensures i < n && v == Names(i)[0] && Aliases(n)[v] == Names(i)
  {
    hide Names;
    if v == Names(n - 1)[0] {
      i := n - 1;
    } else {
      i := AliasesListed(n - 1, v);
    }
  }

  function Declared(): Registry { Registry(Rows(ROW_COUNT), Aliases(VENDOR_COUNT)) }

  /** A section name ends like the vendor it belongs to. */
  lemma NameOwner(v: string, name: string) returns (i: nat)
    requires name in AliasesOf(Declared(), v)
    ensures i < VENDOR_COUNT && v == Names(i)[0] && Owner(name) == i
  {
    hide Names, Owner, Aliases;
    i := AliasesListed(VENDOR_COUNT, v);
    NamesOwned(i);
  }

  /** The declared registry is well formed, so what is proved of migration holds of it. */
  lemma DeclaredIsWellFormed()
    ensures WellFormed(Declared())
  {
    hide RowAt, Names, Owner, Rows, Aliases, Apart;
    forall i, j | 0 <= i < ROW_COUNT && 0 <= j < ROW_COUNT && RowAt(i).vendor == RowAt(j).vendor
      ensures RowAt(i).principalKey != Some(RowAt(j).secretKey)
      ensures i != j ==> RowAt(i).secretKey != RowAt(j).secretKey && Apart(RowAt(i), RowAt(j))
    {
      RowOwned(i);
      RowOwned(j);
      NamesOwned(RowOwner(i));
      NamesOwned(RowOwner(j));
      assert RowOwner(i) == Owner(RowAt(i).vendor) == RowOwner(j);
      if i != j { RowsFit(i, j); } else { AccountIsNotTheSecret(i); }
    }
    forall v, w, name | v != w && name in AliasesOf(Declared(), v) ensures name !in AliasesOf(Declared(), w) {
      if name in AliasesOf(Declared(), w) {
        var i := NameOwner(v, name);
        var j := NameOwner(w, name);
      }
    }
  }
}
