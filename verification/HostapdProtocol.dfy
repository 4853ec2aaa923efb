/** The vocabulary of the hostapd control protocol: enumerations and the property texts they stand for. */
module HostapdProtocol {
  import opened Wrappers

  datatype EnforceConfigurationChange = Now | Defer

  // ---------- Bit-mask valued properties ----------

  datatype WpaAuthenticationAlgorithm = Invalid | OpenSystem | SharedKey | Leap | Ft | SaeAlgorithm | Fils | FilsSkPfs

  function WpaAuthenticationAlgorithmPropertyValue(a: WpaAuthenticationAlgorithm): nat {
    match a
    case Invalid => 0
    case OpenSystem => 1
    case SharedKey => 2
    case Leap => 4
    case Ft => 8
    case SaeAlgorithm => 16
    case Fils => 32
    case FilsSkPfs => 64
  }

  const WPA_AUTHENTICATION_ALGORITHM_MASK: nat := 3

  /** Wpa3 is the same enumerator value as Wpa2. */
  datatype WpaSecurityProtocol = UnknownProtocol | Wpa | Wpa2

  const Wpa3 := Wpa2

  function WpaSecurityProtocolPropertyValue(p: WpaSecurityProtocol): nat {
    match p
    case UnknownProtocol => 0
    case Wpa => 1
    case Wpa2 => 2
  }

  const WPA_SECURITY_PROTOCOL_MASK: nat := 3

  // ---------- Key management ----------

  datatype WpaKeyManagement =
    | UnknownKeyManagement | Ieee8021x | Psk | NoKeyManagement | Ieee8021xNoWpa | WpaNone | FtIeee8021x | FtPsk
    | Ieee8021xSha256 | PskSha256 | Wps | Sae | FtSae | WapiPsk | WapiCert | Cckm | Osen | Ieee8021xSuiteB
    | Ieee8021xSuiteB192 | FilsSha256 | FilsSha384 | FtFilsSha256 | FtFilsSha384 | Owe | Dpp | FtIeee8021xSha384
    | Pasn

  const INVALID_VALUE := "UNKNOWN"

  function WpaKeyManagementPropertyValue(k: WpaKeyManagement): string {
    match k
    case Ieee8021x => "WPA-EAP"
    case Psk => "WPA-PSK"
    case FtIeee8021x => "FT-EAP"
    case FtPsk => "FT-PSK"
    case Ieee8021xSha256 => "WPA-EAP-SHA256"
    case PskSha256 => "WPA-PSK-SHA256"
    case Sae => "SAE"
    case FtSae => "FT-SAE"
    case Osen => "OSEN"
    case Ieee8021xSuiteB => "WPA-EAP-SUITE-B"
    case Ieee8021xSuiteB192 => "WPA-EAP-SUITE-B-192"
    case FilsSha256 => "FILS-SHA256"
    case FilsSha384 => "FILS-SHA384"
    case FtFilsSha256 => "FT-FILS-SHA256"
    case FtFilsSha384 => "FT-FILS-SHA384"
    case Owe => "OWE"
    case Dpp => "DPP"
    case FtIeee8021xSha384 => "FT-EAP-SHA384"
    case Pasn => "PASN"
    case _ => INVALID_VALUE
  }

  function WpaKeyManagementFromPropertyValue(text: string): WpaKeyManagement {
    if text == "WPA-EAP" then Ieee8021x
    else if text == "WPA-PSK" then Psk
    else if text == "FT-EAP" then FtIeee8021x
    else if text == "FT-PSK" then FtPsk
    else if text == "WPA-EAP-SHA256" then Ieee8021xSha256
    else if text == "WPA-PSK-SHA256" then PskSha256
    else if text == "SAE" then Sae
    else if text == "FT-SAE" then FtSae
    else if text == "OSEN" then Osen
    else if text == "WPA-EAP-SUITE-B" then Ieee8021xSuiteB
    else if text == "WPA-EAP-SUITE-B-192" then Ieee8021xSuiteB192
    else if text == "FILS-SHA256" then FilsSha256
    else if text == "FILS-SHA384" then FilsSha384
    else if text == "FT-FILS-SHA256" then FtFilsSha256
    else if text == "FT-FILS-SHA384" then FtFilsSha384
    else if text == "OWE" then Owe
    else if text == "DPP" then Dpp
    else if text == "FT-EAP-SHA384" then FtIeee8021xSha384
    else if text == "PASN" then Pasn
    else UnknownKeyManagement
  }

  predicate IsKeyManagementFastTransition(k: WpaKeyManagement) {
    k in {Ieee8021x, FtIeee8021x, FtPsk, FtIeee8021xSha384, FtSae, FtFilsSha256, FtFilsSha384}
  }

  predicate IsKeyManagementIeee8021x(k: WpaKeyManagement) {
    k in {Ieee8021x, FtIeee8021x, FtIeee8021xSha384, Cckm, Osen, Ieee8021xSha256, Ieee8021xSuiteB,
          Ieee8021xSuiteB192, FilsSha256, FilsSha384, FtFilsSha256, FtFilsSha384}
  }

  predicate IsValidKeyManagement(k: WpaKeyManagement) { WpaKeyManagementPropertyValue(k) != INVALID_VALUE }

  // ---------- Ciphers ----------

  datatype WpaCipher =
    | UnknownCipher | NoCipher | Wep40 | Wep104 | Tkip | Ccmp | Aes128Cmac | Gcmp | Sms4 | Gcmp256 | Ccmp256
    | BipGmac128 | BipGmac256 | BipCmac256 | GtkNotUsed

  function WpaCipherPropertyValue(c: WpaCipher): string {
    match c
    case NoCipher => "NONE"
    case Wep40 => "WEP40"
    case Wep104 => "WEP104"
    case Tkip => "TKIP"
    case Ccmp => "CCMP"
    case Aes128Cmac => "AES-128-CMAC"
    case Gcmp => "GCMP"
    case Gcmp256 => "GCMP-256"
    case Ccmp256 => "CCMP-256"
    case BipGmac128 => "BIP-GMAC-128"
    case BipGmac256 => "BIP-GMAC-256"
    case BipCmac256 => "BIP-CMAC-256"
    case GtkNotUsed => "GTK_NOT_USED"
    case _ => INVALID_VALUE
  }

  predicate IsValidCipher(c: WpaCipher) { WpaCipherPropertyValue(c) != INVALID_VALUE }

  const PROPERTY_NAME_INVALID := "invalid"

  function WpaCipherPropertyName(p: WpaSecurityProtocol): string {
    match p
    case Wpa => "wpa_pairwise"
    case Wpa2 => "rsn_pairwise"
    case UnknownProtocol => PROPERTY_NAME_INVALID
  }

  // ---------- SAE passwords ----------

  type int32 = x: int | -0x8000_0000 <= x < 0x8000_0000

  datatype SaePassword = SaePassword(
    credential: string,
    passwordId: Option<string>,
    peerMacAddress: Option<string>,
    vlanId: Option<int32>)

  // ---------- RADIUS endpoints ----------

  datatype RadiusEndpointType = UnknownEndpoint | Authentication | Accounting

  type uint16 = x: int | 0 <= x < 0x1_0000

  datatype RadiusEndpointConfiguration = RadiusEndpointConfiguration(
    endpointType: RadiusEndpointType,
    address: string,
    port: Option<uint16>,
    sharedSecret: string)

  /** The names of the address, port and shared secret properties. */
  function GetRadiusEndpointPropertyNames(t: RadiusEndpointType): (string, string, string) {
    match t
    case Authentication => ("auth_server_addr", "auth_server_port", "auth_server_shared_secret")
    case Accounting => ("acct_server_addr", "acct_server_port", "acct_server_shared_secret")
    case UnknownEndpoint => (PROPERTY_NAME_INVALID, PROPERTY_NAME_INVALID, PROPERTY_NAME_INVALID)
  }
}
