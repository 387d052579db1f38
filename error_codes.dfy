/**
 * The status codes and close reasons shared by the wrapper and the native
 * protocol engine. Every error code is negative; 0 is success.
 */
module ErrorCodes {

  // error_code_t
  const EN_ECT_SUCCESS: int := 0
  const EN_ECT_FIRST_IDEL: int := -1001
  const EN_ECT_HANDSHAKE: int := -1002
  const EN_ECT_BUSY: int := -1003
  const EN_ECT_SESSION_EXPIRED: int := -1004
  const EN_ECT_REFUSE_RECONNECT: int := -1005
  const EN_ECT_MISS_CALLBACKS: int := -1006
  const EN_ECT_INVALID_ROUTER: int := -1007
  const EN_ECT_INVALID_ADDRESS: int := -1008
  const EN_ECT_NETWORK: int := -1009
  const EN_ECT_BAD_PROTOCOL: int := -1010
  const EN_ECT_CLOSING: int := -1011
  const EN_ECT_LOST_MANAGER: int := -1012
  const EN_ECT_MSG_TOO_LARGE: int := -1013
  const EN_ECT_HANDLE_NOT_FOUND: int := -1014
  const EN_ECT_ALREADY_HAS_FD: int := -1015
  const EN_ECT_SESSION_NOT_FOUND: int := -1016
  const EN_ECT_SESSION_ALREADY_EXIST: int := -1017
  const EN_ECT_NOT_WRITING: int := -1018
  const EN_ECT_CRYPT_NOT_SUPPORTED: int := -1019
  const EN_ECT_PARAM: int := -1020
  const EN_ECT_BAD_DATA: int := -1021
  const EN_ECT_INVALID_SIZE: int := -1022
  const EN_ECT_NO_DATA: int := -1023
  const EN_ECT_MALLOC: int := -1024
  const EN_ECT_CRYPT_ALREADY_INITED: int := -1101
  const EN_ECT_CRYPT_VERIFY: int := -1102
  const EN_ECT_CRYPT_OPERATION: int := -1103
  const EN_ECT_CRYPT_READ_DHPARAM_FILE: int := -1211
  const EN_ECT_CRYPT_INIT_DHPARAM: int := -1212
  const EN_ECT_CRYPT_READ_RSA_PUBKEY: int := -1221
  const EN_ECT_CRYPT_READ_RSA_PRIKEY: int := -1222

  // close_reason_t
  const EN_CRT_UNKNOWN: int := 0x0000
  const EN_CRT_EAGAIN: int := 0x0001
  const EN_CRT_TRAFIC_EXTENDED: int := 0x0002
  const EN_CRT_INVALID_DATA: int := 0x0003
  const EN_CRT_RESET: int := 0x0004
  const EN_CRT_RECONNECT_INNER_BOUND: int := 0x0100
  const EN_CRT_RECONNECT_BOUND: int := 0x10000
  const EN_CRT_FIRST_IDLE: int := 0x10001
  const EN_CRT_SERVER_CLOSED: int := 0x10002
  const EN_CRT_SERVER_BUSY: int := 0x10003
  const EN_CRT_KICKOFF: int := 0x10004
  const EN_CRT_HANDSHAKE: int := 0x10005
  const EN_CRT_LOGOUT: int := 0x10006
  const EN_CRT_ADMINISTRATOR: int := 0x10007
  const EN_CRT_MAINTENANCE: int := 0x10008
  const EN_CRT_EOF: int := 0x10009
  const EN_CRT_NO_RECONNECT_INNER_BOUND: int := 0x10100
}
