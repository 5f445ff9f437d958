/**
 * The fixed texts `friendly_error` (src/nmcli.rs:313-334) substitutes for
 * nmcli's diagnostics, kept apart from the classifier so that facts about
 * their letters can be checked on their own. The longer texts are written in
 * pieces so that the verifier can look inside them.
 */
module Messages {
  const NotFoundText := "Network not found. It may be " + "out of range or hidden."
  const PasswordRequiredText := "Password required" + ". This network needs a " + "password to connect."
  const NoAdapterText := "No WiFi adapter found. " + "Make sure your WiFi hardware " + "is enabled."
  const NotRunningText := "NetworkManager is not running. " + "Start it with: sudo systemctl " + "start NetworkManager"
  const ConnectionGoneText := "Saved connection not found. " + "It may have already been " + "removed."
  const IncorrectPasswordText := "Incorrect password" + ". Please try again."
  const PermissionText := "Permission denied. You may " + "need to run with appropriate " + "privileges."
  const UnknownText := "An unknown error occurred."

  lemma NotFoundLacksQ()
    ensures 'q' !in NotFoundText
  {
  }

  lemma NotFoundLacksC()
    ensures 'c' !in NotFoundText
  {
  }

  lemma NoAdapterLacksQ()
    ensures 'q' !in NoAdapterText
  {
  }

  lemma NoAdapterLacksC()
    ensures 'c' !in NoAdapterText
  {
  }

  lemma NotRunningLacksQ()
    ensures 'q' !in NotRunningText
  {
  }

  lemma NotRunningLacksP()
    ensures 'p' !in NotRunningText
  {
  }

  lemma ConnectionGoneLacksQ()
    ensures 'q' !in ConnectionGoneText
  {
  }

  lemma ConnectionGoneLacksP()
    ensures 'p' !in ConnectionGoneText
  {
  }

  lemma PermissionLacksQ()
    ensures 'q' !in PermissionText
  {
  }

  lemma PermissionLacksC()
    ensures 'c' !in PermissionText
  {
  }

  lemma UnknownLacksQ()
    ensures 'q' !in UnknownText
  {
  }

  lemma UnknownLacksP()
    ensures 'p' !in UnknownText
  {
  }
}
