/**
 * The port-to-application table of the IPDR view (dash-implementation/dash_script.py)
 * and what a lookup in it finds.
 */
module IpdrPorts {
  import opened Wrappers
  import opened Text

  /** The literal table `ports_to_apps`, header row and range keys included. */
  const PortsToApps: map<string, string> := map[
    "DEST PORT" := "App", "5223" := "WhatsApp", "5228" := "WhatsApp", "4244" := "WhatsApp",
    "5222" := "WhatsApp", "5242" := "WhatsApp", "443" := "Skype", "3478-3481" := "Skype",
    "49152-65535" := "Skype", "80" := "Web connection", "8080" := "Web Connection",
    "8081" := "Web Connection", "993" := "IMAP", "143" := "IMAP", "8024" := "iTunes",
    "8027" := "iTunes", "8013" := "iTunes", "8017" := "iTunes", "8003" := "iTunes",
    "7275" := "iTunes", "8025" := "iTunes", "8009" := "iTunes", "58128" := "Xsan",
    "51637" := "Xsan", "61076" := "Xsan", "40020" := "Microsoft Online Games",
    "40017" := "Microsoft Various Games", "40023" := "Microsoft Online Games",
    "40019" := "Microsoft Online Games", "40001" := "Microsoft Online Games",
    "40004" := "Microsoft Online Games", "40034" := "Microsoft Online Games",
    "40031" := "Microsoft Online Games", "40029" := "Microsoft Online Games",
    "40005" := "Microsoft Online Games", "40026" := "Microsoft Online Games",
    "40008" := "Microsoft Online Games", "40032" := "Microsoft Online Games"]

  /** `ports_to_apps[str(port)]`; None where the lookup raises KeyError. */
  function AppName(port: nat): Option<string> {
    var key := NatToString(port);
    if key in PortsToApps then Some(PortsToApps[key]) else None
  }

  /** Ports are looked up as decimal text, so a single port listed literally is found. */
  lemma SkypePort()
    ensures AppName(443) == Some("Skype")
  {
    assert NatToString(443) == "443" by { assert NatToString(44) == "44"; }
  }

  lemma WhatsAppPort()
    ensures AppName(5223) == Some("WhatsApp")
  {
    assert NatToString(5223) == "5223" by { assert NatToString(522) == "522" by { assert NatToString(52) == "52"; } }
  }

  /** Port 40017 is the one "Microsoft Various Games" entry among the game ports. */
  lemma GamesPort()
    ensures AppName(40017) == Some("Microsoft Various Games")
  {
    assert NatToString(40017) == "40017" by {
      assert NatToString(4001) == "4001" by { assert NatToString(400) == "400" by { assert NatToString(40) == "40"; } }
    }
  }

  /** Range keys are not expanded: a port inside "3478-3481" is unknown. */
  lemma LowRangeNotExpanded()
    ensures AppName(3478) == None
  {
    assert NatToString(3478) == "3478" by { assert NatToString(347) == "347" by { assert NatToString(34) == "34"; } }
  }

  /** Nor is a port inside "49152-65535". */
  lemma HighRangeNotExpanded()
    ensures AppName(50000) == None
  {
    assert NatToString(50000) == "50000" by {
      assert NatToString(5000) == "5000" by { assert NatToString(500) == "500" by { assert NatToString(50) == "50"; } }
    }
  }

  /** No port reaches a range key: a decimal text has no '-'. */
  lemma RangeKeysUnreachable(port: nat)
    ensures NatToString(port) != "3478-3481" && NatToString(port) != "49152-65535"
  {
    var key := NatToString(port);
    if |key| > 5 {
      assert IsDigit(key[4]) && IsDigit(key[5]);
    }
  }

  /** Every port of the range "3478-3481" is unknown to the table. */
  lemma LowRangeUnknown(port: nat)
    requires 3478 <= port <= 3481
    ensures AppName(port) == None
  {
    assert NatToString(port / 10) == NatToString(port / 100) + [DigitChar(port / 10 % 10)];
    assert NatToString(port / 100) == "34" by { assert NatToString(3) == "3"; }
    var key := NatToString(port);
    assert |key| == 4 && key[0] == '3' && key[1] == '4';
  }

  /** Only port 443 is reported as Skype: the two Skype range keys match no port. */
  lemma SkypeOnlyOnPort443(port: nat)
    ensures AppName(port) == Some("Skype") <==> port == 443
  {
    SkypePort();
    RangeKeysUnreachable(port);
    var key := NatToString(port);
    if AppName(port) == Some("Skype") {
      assert key == "443";
      assert NatToString(443) == "443" by { assert NatToString(44) == "44"; }
      NatToStringInjective(port, 443);
    }
  }

  /** No port reaches the header entry "DEST PORT": a decimal text is never that key. */
  lemma HeaderEntryUnreachable(port: nat)
    ensures NatToString(port) != "DEST PORT"
  {
    var key := NatToString(port);
    assert IsDigit(key[0]);
  }
}
