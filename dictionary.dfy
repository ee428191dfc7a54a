/** The RGAA topics the compliance table reports on, each with the rule ids that belong to it. */
module Dictionary {

  const DICTIONARY: seq<(string, seq<string>)> := [
    ("RGAA - 1", ["RGAA - 1.1.1", "RGAA - 1.1.2", "RGAA - 1.1.5"]),
    ("RGAA - 2", ["RGAA - 2.1.1", "RGAA - 2.2.1"]),
    ("RGAA - 3", ["RGAA - 3.2.1", "RGAA - 3.2.2", "RGAA - 3.2.3", "RGAA - 3.2.4"]),
    ("RGAA - 6", ["RGAA - 6.2.1"]),
    ("RGAA - 8", ["RGAA - 8.1.1", "RGAA - 8.1.3", "RGAA - 8.3", "RGAA - 8.5"]),
    ("RGAA - 9", ["RGAA - 9.1.1", "RGAA - 9.1.3"]),
    ("RGAA - 11", ["RGAA - 11.1.1", "RGAA - 11.1.2"])
  ]
}
